/** Sorting parallel multivalued fields of a record by the values of the first one. */
module SortArray {

  import opened ParallelFields

  // ----- orders -----

  type Order = (string, string) -> bool

  ghost predicate TotalOrder(leq: Order) {
    && (forall a, b :: leq(a, b) || leq(b, a))
    && (forall a, b, c :: leq(a, b) && leq(b, c) ==> leq(a, c))
  }

  ghost predicate Ordered(leq: Order, xs: seq<string>) {
    forall i, j :: 0 <= i < j < |xs| ==> leq(xs[i], xs[j])
  }

  /** What locateby finds in a list, whether or not the value is there. */
  type Locate = (Values, string) -> nat

  ghost predicate InsertionPoint(leq: Order, xs: Values, v: string, n: nat) {
    && n <= |xs|
    && (forall i :: 0 <= i < n ==> leq(xs[i], v))
    && (forall i :: n <= i < |xs| ==> leq(v, xs[i]))
  }

  ghost predicate Locates(leq: Order, locate: Locate) {
    forall xs: Values, v :: Ordered(leq, xs) ==> InsertionPoint(leq, xs, v, locate(xs, v))
  }

  lemma InsertOrdered(leq: Order, xs: Values, n: nat, v: string)
    requires Ordered(leq, xs) && InsertionPoint(leq, xs, v, n)
    ensures Ordered(leq, Insert(xs, n, v))
  {
    var ys := xs[..n] + [v] + xs[n..];
    forall i, j | 0 <= i < j < |ys|
      ensures leq(ys[i], ys[j])
    {
      assert ys[i] == if i < n then xs[i] else if i == n then v else xs[i - 1];
      assert ys[j] == if j < n then xs[j] else if j == n then v else xs[j - 1];
    }
  }

  // ----- one permutation for all fields -----

  /** Every row from 0 to n once. */
  ghost predicate Permutation(perm: seq<nat>, n: nat) {
    && |perm| == n
    && (forall i :: 0 <= i < n ==> perm[i] < n)
    && (forall i, j :: 0 <= i < j < n ==> perm[i] != perm[j])
    && (forall r :: 0 <= r < n ==> r in perm)
  }

  function Squeeze(perm: seq<nat>, n: nat, r: nat): seq<nat>
    requires n <= |perm|
  {
    perm[..n] + [r] + perm[n..]
  }

  lemma SqueezeAt(perm: seq<nat>, n: nat, r: nat)
    requires n <= r == |perm|
    ensures |Squeeze(perm, n, r)| == r + 1
    ensures forall i :: 0 <= i < r + 1 ==>
              Squeeze(perm, n, r)[i] == if i < n then perm[i] else if i == n then r else perm[i - 1]
  {
  }

  lemma SqueezePermutation(perm: seq<nat>, n: nat, r: nat)
    requires Permutation(perm, r) && n <= r
    ensures Permutation(Squeeze(perm, n, r), r + 1)
  {
    SqueezeAt(perm, n, r);
    hide Squeeze;
    var p := Squeeze(perm, n, r);
    forall q | 0 <= q < r + 1
      ensures q in p
    {
      if q == r {
        assert p[n] == r;
      } else {
        assert q in perm;
        var i :| 0 <= i < r && perm[i] == q;
        assert p[if i < n then i else i + 1] == q;
      }
    }
  }

  lemma FollowsInsert(before: Values, after: Values, perm: seq<nat>, n: nat, r: nat)
    requires Follows(before, after, perm) && n <= |perm|
    ensures Follows(before, Insert(after, n, Value(before, r)), Squeeze(perm, n, r))
  {
    var after' := Insert(after, n, Value(before, r));
    forall i: nat
      ensures Value(after', i) ==
              if i < |perm| + 1 then Value(before, Squeeze(perm, n, r)[i]) else ""
    {
      InsertShifts(after, n, Value(before, r), i);
      if i > 0 {
        assert Value(after, i - 1) == if i - 1 < |perm| then Value(before, perm[i - 1]) else "";
      }
    }
  }

  ghost predicate AllFollow(before: Fields, after: Fields, fns: seq<nat>, perm: seq<nat>, from: nat) {
    forall j :: from <= j < |fns| ==> Follows(Field(before, fns[j]), Field(after, fns[j]), perm)
  }

  // ----- empty keys -----

  /** How many keys are empty before the first one that is not, among the first n. */
  function LeadingEmpty(keys: Values, n: nat): (e: nat)
    ensures e <= n
  {
    if n == 0 then 0
    else if LeadingEmpty(keys, n - 1) == n - 1 && Value(keys, n - 1) == "" then n
    else LeadingEmpty(keys, n - 1)
  }

  /** The key column read as n rows. */
  function Column(xs: Values, n: nat): seq<string> {
    seq(n, i requires 0 <= i < n => Value(xs, i))
  }

  /** The key column as rows is in order if and only if no key was lost, the first one not being empty, or
      the empty key comes last in the order anyway. */
  lemma ColumnOrdered(leq: Order, keys: Values, sorted: Values, perm: seq<nat>, n: nat)
    requires TotalOrder(leq) && Ordered(leq, sorted) && Permutation(perm, n) && Follows(keys, sorted, perm)
    requires |sorted| == n - LeadingEmpty(keys, n)
    ensures Ordered(leq, Column(sorted, n)) <==>
            LeadingEmpty(keys, n) == 0 || forall r :: 0 <= r < n ==> leq(Value(keys, r), "")
  {
    var col := Column(sorted, n);
    if LeadingEmpty(keys, n) == 0 {
      assert col == sorted;
    } else if Ordered(leq, col) {
      assert col[n - 1] == "";
      forall r | 0 <= r < n
        ensures leq(Value(keys, r), "")
      {
        assert r in perm;
        var i :| 0 <= i < n && perm[i] == r;
        assert Value(sorted, i) == Value(keys, r) == col[i];
      }
    } else {
      var i, j :| 0 <= i < j < n && !leq(col[i], col[j]);
      assert j >= |sorted|;
      assert Value(sorted, i) == Value(keys, perm[i]);
    }
  }

  /** The keys "" and "a", in an order that has "" before "a": the sort leaves them the wrong way round. */
  lemma EmptyKeyLast(leq: Order, sorted: Values, perm: seq<nat>)
    requires TotalOrder(leq) && !leq("a", "")
    requires Ordered(leq, sorted) && Permutation(perm, 2) && Follows(["", "a"], sorted, perm)
    requires |sorted| == 2 - LeadingEmpty(["", "a"], 2)
    ensures Column(sorted, 2) == ["a", ""] && !Ordered(leq, Column(sorted, 2))
  {
    assert LeadingEmpty(["", "a"], 1) == 1 && LeadingEmpty(["", "a"], 2) == 1;
    assert Value(["", "a"], 1) == "a";
    ColumnOrdered(leq, ["", "a"], sorted, perm, 2);
    assert 1 in perm && Value(sorted, 1) == "" == Value(["", "a"], perm[1]);
    assert Value(sorted, 0) == Value(["", "a"], perm[0]);
  }

  // ----- the sort -----

  class Record {
    var fields: Fields

    constructor (f: Fields)
      ensures fields == f
    {
      fields := f;
    }

    /** The values of the field that has most. */
    method CountRows(fns: seq<nat>) returns (n: nat)
      requires fns != []
      ensures forall j :: 0 <= j < |fns| ==> |Field(fields, fns[j])| <= n
      ensures exists j :: 0 <= j < |fns| && |Field(fields, fns[j])| == n
    {
      n := |Field(fields, fns[0])|;
      for k := 1 to |fns|
        invariant forall j :: 0 <= j < k ==> |Field(fields, fns[j])| <= n
        invariant exists j :: 0 <= j < k && |Field(fields, fns[j])| == n
      {
        if |Field(fields, fns[k])| > n {
          n := |Field(fields, fns[k])|;
        }
      }
    }

    /** Inserts a value of every parallel field at its place in the new fields. */
    method InsertRow(newFields: Fields, fns: seq<nat>, r: nat, n: nat, ghost perm: seq<nat>) returns (grown: Fields)
      requires forall i, j :: 0 <= i < j < |fns| ==> fns[i] != fns[j]
      requires fns != [] && AllFollow(fields, newFields, fns, perm, 1) && n <= |perm|
      ensures AllFollow(fields, grown, fns, Squeeze(perm, n, r), 1)
    {
      hide Follows, Insert, Field;
      grown := newFields;
      for k := 1 to |fns|
        invariant forall j :: 1 <= j < k ==> Follows(Field(fields, fns[j]), Field(grown, fns[j]), Squeeze(perm, n, r))
        invariant forall j :: 1 <= j && k <= j < |fns| ==> Follows(Field(fields, fns[j]), Field(grown, fns[j]), perm)
      {
        FollowsInsert(Field(fields, fns[k]), Field(grown, fns[k]), perm, n, r);
        var was := grown;
        grown := grown[fns[k] := Insert(Field(grown, fns[k]), n, Value(Field(fields, fns[k]), r))];
        FieldUpdated(was, fns[k], grown[fns[k]]);
      }
    }

    /** Puts the new fields back. */
    method PutBack(sorted: Values, others: Fields, fns: seq<nat>, ghost perm: seq<nat>)
      requires fns != [] && forall i, j :: 0 <= i < j < |fns| ==> fns[i] != fns[j]
      requires Follows(Field(fields, fns[0]), sorted, perm) && AllFollow(fields, others, fns, perm, 1)
      modifies this
      ensures AllFollow(old(fields), fields, fns, perm, 0)
      ensures Field(fields, fns[0]) == sorted
      ensures forall fn :: fn !in fns ==> Field(fields, fn) == Field(old(fields), fn)
    {
      hide Follows, Field;
      ghost var before := fields;
      FieldUpdated(fields, fns[0], sorted);
      fields := fields[fns[0] := sorted];
      for k := 1 to |fns|
        invariant Field(fields, fns[0]) == sorted
        invariant forall j :: 0 <= j < k ==> Follows(Field(before, fns[j]), Field(fields, fns[j]), perm)
        invariant forall fn :: fn !in fns ==> Field(fields, fn) == Field(before, fn)
      {
        FieldUpdated(fields, fns[k], Field(others, fns[k]));
        assert fns[k] != fns[0];
        fields := fields[fns[k] := Field(others, fns[k])];
      }
    }

    /** Sorts the fields by the first: one permutation of the rows for all of them, the rest unchanged, and
        the keys in order. */
    method SortArray(fns: seq<nat>, ghost leq: Order, locate: Locate) returns (ghost perm: seq<nat>, n: nat)
      requires fns != [] && forall i, j :: 0 <= i < j < |fns| ==> fns[i] != fns[j]
      requires TotalOrder(leq) && Locates(leq, locate)
      modifies this
      ensures forall j :: 0 <= j < |fns| ==> |Field(old(fields), fns[j])| <= n
      ensures exists j :: 0 <= j < |fns| && |Field(old(fields), fns[j])| == n
      ensures Permutation(perm, n) && AllFollow(old(fields), fields, fns, perm, 0)
      ensures forall fn :: fn !in fns ==> Field(fields, fn) == Field(old(fields), fn)
      ensures Ordered(leq, Field(fields, fns[0]))
      ensures |Field(fields, fns[0])| == n - LeadingEmpty(Field(old(fields), fns[0]), n)
    {
      hide Follows, Permutation, Ordered, Locates, TotalOrder, AllFollow, Insert, LeadingEmpty, Field;
      n := CountRows(fns);
      var keys := Field(fields, fns[0]);
      var sorted: Values, others: Fields := [], map[];
      perm := [];
      NothingFollows(fields, fns, leq);
      assert LeadingEmpty(keys, 0) == 0;
      for r := 0 to n
        invariant fields == old(fields) && keys == Field(fields, fns[0])
        invariant Permutation(perm, r) && |perm| == r
        invariant Ordered(leq, sorted) && |sorted| == r - LeadingEmpty(keys, r)
        invariant Follows(keys, sorted, perm) && AllFollow(fields, others, fns, perm, 1)
      {
        var p := locate(sorted, Value(keys, r));
        LocatesAt(leq, locate, sorted, Value(keys, r));
        InsertOrdered(leq, sorted, p, Value(keys, r));
        InsertLength(sorted, p, keys, r);
        FollowsInsert(keys, sorted, perm, p, r);
        SqueezePermutation(perm, p, r);
        others := InsertRow(others, fns, r, p, perm);
        sorted := Insert(sorted, p, Value(keys, r));
        perm := Squeeze(perm, p, r);
      }
      PutBack(sorted, others, fns, perm);
    }
  }

  /** A key is added unless it and all before it are empty. */
  lemma InsertLength(sorted: Values, p: nat, keys: Values, r: nat)
    requires p <= |sorted| == r - LeadingEmpty(keys, r)
    ensures var s' := Insert(sorted, p, Value(keys, r)); |s'| == r + 1 - LeadingEmpty(keys, r + 1)
  {
    var ys := sorted[..p] + [Value(keys, r)] + sorted[p..];
    assert ys[p] == Value(keys, r) && |ys| == |sorted| + 1;
    assert sorted == [] && Value(keys, r) == "" ==> ys == [""];
  }

  lemma LocatesAt(leq: Order, locate: Locate, xs: Values, v: string)
    requires Locates(leq, locate) && Ordered(leq, xs)
    ensures InsertionPoint(leq, xs, v, locate(xs, v))
  {
  }

  lemma NothingFollows(fields: Fields, fns: seq<nat>, leq: Order)
    requires fns != []
    ensures Follows(Field(fields, fns[0]), [], []) && AllFollow(fields, map[], fns, [], 1)
    ensures Permutation([], 0) && Ordered(leq, [])
  {
  }
}
