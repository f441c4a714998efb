/** Multivalued text: a string whose values are separated by mark characters.

    The marks are the six control characters 0x1F down to 0x1A, numbered 1 (record mark), 2 (field
    mark), 3 (value mark), 4 (subvalue mark), 5 (text mark), 6 (subtext mark): the higher the number,
    the deeper the nesting.
*/
module MultiValue {

  const VM_NO: nat := 3

  /** The number of a mark character, or 0 for any other character. */
  function MarkNo(c: char): (n: nat)
    ensures n <= 6
  {
    var code := c as int;
    if 0x1A <= code <= 0x1F then 0x20 - code else 0
  }

  /** Where the leaf that starts at `pos` ends: at the next mark, or at the end of the text. */
  function LeafEnd(s: string, pos: nat): (e: nat)
    requires pos <= |s|
    ensures pos <= e <= |s|
    ensures forall k :: pos <= k < e ==> MarkNo(s[k]) == 0
    ensures e < |s| ==> MarkNo(s[e]) != 0
    decreases |s| - pos
  {
    if pos == |s| || MarkNo(s[pos]) != 0 then pos else LeafEnd(s, pos + 1)
  }

  /** A reading position in a text, with the number of the mark just passed (0 once at the end). */
  datatype Cursor = Cursor(pos: nat, mark: nat)

  /** The cursor before anything is read: its mark, 7, is deeper than any mark. */
  const START := Cursor(0, 7)

  ghost predicate CursorOk(s: string, cu: Cursor) {
    cu.pos <= |s| && cu.mark <= 7
  }

  /** The leaf that reading at the cursor returns. */
  function Leaf(s: string, cu: Cursor): string
    requires cu.pos <= |s|
  {
    s[cu.pos..LeafEnd(s, cu.pos)]
  }

  /** The cursor after reading: just past the mark that ended the leaf, or at the end. */
  function Next(s: string, cu: Cursor): (r: Cursor)
    requires cu.pos <= |s|
    ensures CursorOk(s, r)
    ensures r.mark <= 6
    ensures r.mark != 0 ==> cu.pos < r.pos && r.mark == MarkNo(s[r.pos - 1])
    ensures r.mark == 0 ==> r.pos == |s|
  {
    var e := LeafEnd(s, cu.pos);
    if e == |s| then Cursor(e, 0) else Cursor(e + 1, MarkNo(s[e]))
  }

  /** The leaves of a text: its pieces between marks, at least one. */
  function Leaves(s: string): (ls: seq<string>)
    ensures |ls| > 0
    decreases |s|
  {
    var e := LeafEnd(s, 0);
    if e == |s| then [s] else [s[..e]] + Leaves(s[e + 1..])
  }

  /** The leaves that a cursor has not read yet. */
  function Unread(s: string, cu: Cursor): seq<string>
    requires CursorOk(s, cu)
  {
    if cu.mark == 0 then [] else Leaves(s[cu.pos..])
  }

  lemma {:induction false} LeafEndOfSuffix(s: string, from: nat, pos: nat)
    requires from <= pos <= |s|
    ensures LeafEnd(s[from..], pos - from) == LeafEnd(s, pos) - from
    decreases |s| - pos
  {
    if pos < |s| && MarkNo(s[pos]) == 0 {
      LeafEndOfSuffix(s, from, pos + 1);
    }
  }

  /** Reading takes the first unread leaf and leaves the others unread. */
  lemma ReadTakesFirst(s: string, cu: Cursor)
    requires CursorOk(s, cu) && cu.mark != 0
    ensures Unread(s, cu) == [Leaf(s, cu)] + Unread(s, Next(s, cu))
  {
    LeafEndOfSuffix(s, cu.pos, cu.pos);
    var t := s[cu.pos..];
    var e := LeafEnd(t, 0);
    if e == |t| {
      assert t == Leaf(s, cu);
    } else {
      assert t[..e] == Leaf(s, cu);
      assert t[e + 1..] == s[Next(s, cu).pos..];
    }
  }

  /** How many value marks stand before position `pos`. */
  function ValueNo(s: string, pos: nat): nat
    requires pos <= |s|
  {
    if pos == 0 then 0 else ValueNo(s, pos - 1) + if MarkNo(s[pos - 1]) == VM_NO then 1 else 0
  }

  lemma {:induction false} ValueNoWithin(s: string, a: nat, b: nat)
    requires a <= b <= |s|
    requires forall k :: a <= k < b ==> MarkNo(s[k]) != VM_NO
    ensures ValueNo(s, b) == ValueNo(s, a)
    decreases b
  {
    if a < b {
      ValueNoWithin(s, a, b - 1);
    }
  }

  /** Reading passes one value mark when the leaf ends at a value mark, and none otherwise. */
  lemma NextValueNo(s: string, cu: Cursor)
    requires cu.pos <= |s|
    ensures ValueNo(s, Next(s, cu).pos) == ValueNo(s, cu.pos) + if Next(s, cu).mark == VM_NO then 1 else 0
  {
    ValueNoWithin(s, cu.pos, LeafEnd(s, cu.pos));
  }

  ghost predicate NoMarkAboveValue(s: string) {
    forall k :: 0 <= k < |s| ==> MarkNo(s[k]) == 0 || MarkNo(s[k]) >= VM_NO
  }
}
