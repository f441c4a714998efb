/** Adding lists of amounts in several units, such as 200STG and 100USD. */
module AddUnits {
  import opened Common

  predicate NoDigits(s: string) {
    forall i :: 0 <= i < |s| ==> !Digit(s[i])
  }

  predicate EndsInDigit(s: string) {
    s != "" && Digit(s[|s| - 1])
  }

  /** Where the unit starts: after the last digit. */
  function UnitAt(s: string): (n: nat)
    ensures n <= |s|
    ensures forall i :: n <= i < |s| ==> !Digit(s[i])
    ensures n > 0 ==> Digit(s[n - 1])
  {
    if s == "" then 0 else if Digit(s[|s| - 1]) then |s| else UnitAt(s[..|s| - 1])
  }

  function Amount(s: string): string {
    s[..UnitAt(s)]
  }

  function Unit(s: string): string {
    s[UnitAt(s)..]
  }

  /** The only way to split a text into a number, which is empty or ends in a digit, and a unit without digits. */
  lemma SplitUnique(number: string, unit: string)
    requires number == "" || EndsInDigit(number)
    requires NoDigits(unit)
    ensures Amount(number + unit) == number && Unit(number + unit) == unit
  {
    var s, n := number + unit, UnitAt(number + unit);
    assert number != "" ==> s[|number| - 1] == number[|number| - 1];
    assert forall i :: |number| <= i < |s| ==> s[i] == unit[i - |number|];
    assert n == |number|;
  }

  /** The scan from the end for the last digit. */
  method AmountUnit(input: string) returns (amount: string, unit: string)
    ensures amount + unit == input && NoDigits(unit) && (amount == "" || EndsInDigit(amount))
    ensures amount == Amount(input) && unit == Unit(input)
  {
    var pos := |input|;
    while pos > 0
      invariant 0 <= pos <= |input| && NoDigits(input[pos..])
    {
      if Digit(input[pos - 1]) {
        amount, unit := input[..pos], input[pos..];
        SplitUnique(amount, unit);
        assert amount + unit == input;
        return;
      }
      assert input[pos - 1..] == [input[pos - 1]] + input[pos..];
      pos := pos - 1;
    }
    amount, unit := "", input;
    SplitUnique("", input);
    assert "" + input == input;
  }

  // ----- numbers -----

  /** What texts are numbers, and the text of the sum of two, which is rounded to the decimals that they show. */
  datatype Numbers = Numbers(num: string -> Option<real>, sum: (string, string) -> string) {

    /** The empty text is zero, other numbers end in a digit or in a point that adds nothing, and a sum is a number
        that ends in a digit. */
    ghost predicate Sound() {
      && num("") == Some(0.0)
      && (forall s :: num(s).Some? ==> Unit(s) == "" || (Unit(s) == "." && num(Amount(s)) == num(s)))
      && (forall a, b :: num(a).Some? && num(b).Some? && (a != "" || b != "") ==>
            num(sum(b, a)).Some? && EndsInDigit(sum(b, a)))
    }

    /** What the text of a sum is worth more than the sum: not zero for numbers with an exponent, whose digits after
        the point are not their decimals. */
    function RoundOff(b: string, a: string): real {
      if num(b).Some? && num(a).Some? && num(sum(b, a)).Some? then num(sum(b, a)).value - num(b).value - num(a).value else 0.0
    }

    /** No sum is rounded. */
    ghost predicate Exact() {
      forall a, b :: a != "" || b != "" ==> RoundOff(b, a) == 0.0
    }

    predicate Numeric(s: string) {
      num(Amount(s)).Some?
    }

    predicate AllNumeric(xs: seq<string>) {
      forall i :: 0 <= i < |xs| ==> Numeric(xs[i])
    }

    /** What an amount adds to the total of a unit. */
    function Part(s: string, unit: string): real {
      if Unit(s) == unit && Numeric(s) then num(Amount(s)).value else 0.0
    }

    function Total(xs: seq<string>, unit: string): real {
      if xs == [] then 0.0 else Total(xs[..|xs| - 1], unit) + Part(xs[|xs| - 1], unit)
    }
  }

  // ----- the addition -----

  /** The first amount of a unit, or the number of amounts if there is none. */
  function First(bb: seq<string>, unit: string): (k: nat)
    ensures k <= |bb|
    ensures k < |bb| ==> Unit(bb[k]) == unit
    ensures forall i :: 0 <= i < k ==> Unit(bb[i]) != unit
  {
    if bb == [] then 0 else if Unit(bb[0]) == unit then 0 else 1 + First(bb[1..], unit)
  }

  function AddOne(n: Numbers, bb: seq<string>, a: string): seq<string> {
    var k := First(bb, Unit(a));
    if k < |bb| then
      if Amount(bb[k]) == "" && Amount(a) == "" then bb[k := Unit(a)]
      else if n.num(Amount(a)).Some? && n.num(Amount(bb[k])).Some?
        then bb[k := n.sum(Amount(bb[k]), Amount(a)) + Unit(a)]
      else bb
    else if bb == [] && Unit(a) == "" then bb
    else bb + [a]
  }

  function AddAll(n: Numbers, bb: seq<string>, aa: seq<string>): seq<string> {
    if aa == [] then bb else AddOne(n, AddAll(n, bb, aa[..|aa| - 1]), aa[|aa| - 1])
  }

  /** Whether a list is one plain number; the empty list is. */
  predicate Plain(n: Numbers, xs: seq<string>) {
    xs == [] || (|xs| == 1 && n.num(xs[0]).Some?)
  }

  function TextOf(xs: seq<string>): string
    requires |xs| <= 1
  {
    if xs == [] then "" else xs[0]
  }

  function Added(n: Numbers, bb: seq<string>, aa: seq<string>): seq<string> {
    if aa == [] then bb
    else if Plain(n, aa) && Plain(n, bb) then [n.sum(TextOf(bb), TextOf(aa))]
    else AddAll(n, bb, aa)
  }

  class Totals {
    var bb: seq<string>

    constructor ()
      ensures bb == []
    {
      bb := [];
    }

    method AddUnits(n: Numbers, aa: seq<string>)
      modifies this
      ensures bb == Added(n, old(bb), aa)
    {
      if aa == [] {
        return;
      }
      if Plain(n, aa) && Plain(n, bb) {
        bb := [n.sum(TextOf(bb), TextOf(aa))];
        return;
      }
      ghost var was := bb;
      for an := 0 to |aa|
        invariant bb == AddAll(n, was, aa[..an])
      {
        assert aa[..an + 1][..an] == aa[..an];
        AddAmount(n, aa[an]);
      }
      assert aa[..|aa|] == aa;
    }

    /** One round of the loop over the amounts to add. */
    method AddAmount(n: Numbers, a: string)
      modifies this
      ensures bb == AddOne(n, old(bb), a)
    {
      hide First, UnitAt, Unit, Amount;
      var anum, acode := AmountUnit(a);
      var bcode := "";
      var nb := |bb|;
      var bn := 0;
      while true
        invariant 0 <= bn <= nb == |bb| && bb == old(bb)
        invariant forall i :: 0 <= i < bn ==> Unit(bb[i]) != acode
        invariant if bn == 0 then bcode == "" else bcode == Unit(bb[bn - 1]) && bcode != acode
        decreases nb - bn
      {
        if !(bn < nb) {
          break;
        }
        var bnum, code := AmountUnit(bb[bn]);
        bcode := code;
        if bcode == acode {
          if bnum != "" || anum != "" {
            if n.num(anum).Some? && n.num(bnum).Some? {
              bb := bb[bn := n.sum(bnum, anum) + acode];
            }
          } else {
            bb := bb[bn := acode];
          }
          break;
        }
        bn := bn + 1;
      }
      if bcode != acode {
        bb := bb[..bn] + [anum + acode] + bb[bn..];
      }
    }
  }

  // ----- every unit's total -----

  lemma {:induction false} TotalUpdate(n: Numbers, xs: seq<string>, k: nat, x: string, unit: string)
    requires k < |xs|
    ensures n.Total(xs[k := x], unit) == n.Total(xs, unit) - n.Part(xs[k], unit) + n.Part(x, unit)
  {
    var m := |xs| - 1;
    if k == m {
      assert xs[k := x][..m] == xs[..m];
    } else {
      TotalUpdate(n, xs[..m], k, x, unit);
      assert xs[k := x][..m] == xs[..m][k := x];
    }
  }

  /** Where an amount goes: to the first entry of its unit, if there is one, and no other entry changes; if there is none
      it goes to the end as it is, but a number without a unit does not go into an empty list. */
  lemma AddOnePlaces(n: Numbers, bb: seq<string>, a: string, k: nat)
    ensures (forall i :: 0 <= i < |bb| ==> Unit(bb[i]) != Unit(a)) && (bb != [] || Unit(a) != "") ==> AddOne(n, bb, a) == bb + [a]
    ensures bb == [] && Unit(a) == "" ==> AddOne(n, bb, a) == []
    ensures k < |bb| && Unit(bb[k]) == Unit(a) && (forall i :: 0 <= i < k ==> Unit(bb[i]) != Unit(a)) ==>
      var x, y, r := Amount(bb[k]), Amount(a), AddOne(n, bb, a);
      && |r| == |bb| && (forall i :: 0 <= i < |bb| && i != k ==> r[i] == bb[i])
      && r[k] == if x == "" && y == "" then Unit(a)
                 else if n.num(x).Some? && n.num(y).Some? then n.sum(x, y) + Unit(a) else bb[k]
  {
    hide Unit, Amount;
    if k < |bb| && Unit(bb[k]) == Unit(a) && (forall i :: 0 <= i < k ==> Unit(bb[i]) != Unit(a)) {
      FirstIs(bb, Unit(a), k);
    }
  }

  lemma FirstIs(bb: seq<string>, unit: string, k: nat)
    requires k < |bb| && Unit(bb[k]) == unit && (forall i :: 0 <= i < k ==> Unit(bb[i]) != unit)
    ensures First(bb, unit) == k
  {
    hide Unit;
    if First(bb, unit) >= |bb| {
      NoneFirst(bb, unit, k);
    }
  }

  lemma {:induction false} NoneFirst(bb: seq<string>, unit: string, k: nat)
    requires k < |bb| && Unit(bb[k]) == unit
    ensures First(bb, unit) <= k
  {
    hide Unit;
    if k > 0 && Unit(bb[0]) != unit {
      NoneFirst(bb[1..], unit, k - 1);
    }
  }

  /** A unit written alone, or a sum written before its unit, is read back. */
  lemma SumReadBack(n: Numbers, b: string, a: string)
    requires n.Sound() && n.Numeric(a) && n.Numeric(b) && Unit(b) == Unit(a) && (Amount(b) != "" || Amount(a) != "")
    ensures var x := n.sum(Amount(b), Amount(a)) + Unit(a);
            && n.Numeric(x)
            && forall u :: n.Part(x, u) ==
                 n.Part(b, u) + n.Part(a, u) + if u == Unit(a) then n.RoundOff(Amount(b), Amount(a)) else 0.0
  {
    SplitUnique(n.sum(Amount(b), Amount(a)), Unit(a));
  }

  lemma BlankReadBack(n: Numbers, b: string, a: string)
    requires n.Sound() && Unit(b) == Unit(a) && Amount(b) == "" && Amount(a) == ""
    ensures Unit(a) == b && forall u :: n.Part(b, u) == 0.0 && n.Part(a, u) == 0.0
  {
    assert Amount(b) + Unit(b) == b;
  }

  /** What is lost of an amount: the number without a unit, when there is nothing to add it to. */
  function Dropped(n: Numbers, nothing: bool, a: string, unit: string): real {
    if nothing && Unit(a) == "" then n.Part(a, unit) else 0.0
  }

  /** What rounding adds when one amount is added. */
  function StepOff(n: Numbers, bb: seq<string>, a: string, unit: string): real {
    var k := First(bb, Unit(a));
    if k < |bb| && Unit(a) == unit && (Amount(bb[k]) != "" || Amount(a) != "") then n.RoundOff(Amount(bb[k]), Amount(a))
    else 0.0
  }

  function AllOff(n: Numbers, bb: seq<string>, aa: seq<string>, unit: string): real {
    if aa == [] then 0.0
    else AllOff(n, bb, aa[..|aa| - 1], unit) + StepOff(n, AddAll(n, bb, aa[..|aa| - 1]), aa[|aa| - 1], unit)
  }

  /** What rounding adds in the addition of a list: the rounding of all the sums that it makes. */
  function Off(n: Numbers, bb: seq<string>, aa: seq<string>, unit: string): real {
    if aa != [] && Plain(n, aa) && Plain(n, bb) then if unit == "" then n.RoundOff(TextOf(bb), TextOf(aa)) else 0.0
    else AllOff(n, bb, aa, unit)
  }

  lemma AddOneConserves(n: Numbers, bb: seq<string>, a: string, unit: string)
    requires n.Sound() && n.AllNumeric(bb) && n.Numeric(a)
    ensures n.AllNumeric(AddOne(n, bb, a))
    ensures n.Total(AddOne(n, bb, a), unit) ==
            n.Total(bb, unit) + n.Part(a, unit) + StepOff(n, bb, a, unit) - Dropped(n, bb == [], a, unit)
  {
    hide Unit, Amount, First, n.Numeric, n.Part, n.Total, n.RoundOff;
    var k := First(bb, Unit(a));
    if k < |bb| {
      assert n.Numeric(bb[k]);
      NumericMeans(n, a);
      NumericMeans(n, bb[k]);
      if Amount(bb[k]) == "" && Amount(a) == "" {
        BlankReadBack(n, bb[k], a);
        TotalUpdate(n, bb, k, Unit(a), unit);
      } else {
        SumReadBack(n, bb[k], a);
        TotalUpdate(n, bb, k, n.sum(Amount(bb[k]), Amount(a)) + Unit(a), unit);
      }
    } else {
      TotalAppend(n, bb, a, unit);
    }
  }

  lemma NumericMeans(n: Numbers, s: string)
    ensures n.Numeric(s) <==> n.num(Amount(s)).Some?
  {
  }

  lemma TotalAppend(n: Numbers, xs: seq<string>, x: string, unit: string)
    ensures n.Total(xs + [x], unit) == n.Total(xs, unit) + n.Part(x, unit)
  {
    assert (xs + [x])[..|xs|] == xs;
  }

  predicate NoUnits(xs: seq<string>) {
    forall i :: 0 <= i < |xs| ==> Unit(xs[i]) == ""
  }

  /** The sum of the amounts without a unit that come before the first one with a unit. */
  function Leading(n: Numbers, aa: seq<string>): real {
    if aa == [] then 0.0
    else Leading(n, aa[..|aa| - 1]) + if NoUnits(aa) then n.Part(aa[|aa| - 1], "") else 0.0
  }

  lemma {:induction false} AddAllConserves(n: Numbers, bb: seq<string>, aa: seq<string>, unit: string)
    requires n.Sound() && n.AllNumeric(bb) && n.AllNumeric(aa)
    ensures n.AllNumeric(AddAll(n, bb, aa))
    ensures AddAll(n, bb, aa) == [] <==> bb == [] && NoUnits(aa)
    ensures n.Total(AddAll(n, bb, aa), unit) ==
            n.Total(bb, unit) + n.Total(aa, unit) + AllOff(n, bb, aa, unit)
            - if unit == "" && bb == [] then Leading(n, aa) else 0.0
    decreases |aa|
  {
    hide Unit, n.Numeric, n.Part, AddOne, StepOff;
    if aa != [] {
      var front, a := aa[..|aa| - 1], aa[|aa| - 1];
      AddAllConserves(n, bb, front, unit);
      var was := AddAll(n, bb, front);
      AddOneConserves(n, was, a, unit);
      AddOneEmpty(n, was, a);
      NoUnitsFront(aa);
      DroppedPart(n, a, unit);
    }
  }

  lemma NoUnitsFront(aa: seq<string>)
    requires aa != []
    ensures NoUnits(aa) <==> NoUnits(aa[..|aa| - 1]) && Unit(aa[|aa| - 1]) == ""
  {
    if NoUnits(aa[..|aa| - 1]) && Unit(aa[|aa| - 1]) == "" {
      forall i | 0 <= i < |aa|
        ensures Unit(aa[i]) == ""
      {
        assert i < |aa| - 1 ==> aa[i] == aa[..|aa| - 1][i];
      }
    }
  }

  lemma DroppedPart(n: Numbers, a: string, unit: string)
    ensures unit != "" && Unit(a) == "" ==> n.Part(a, unit) == 0.0
  {
  }

  lemma AddOneEmpty(n: Numbers, bb: seq<string>, a: string)
    ensures AddOne(n, bb, a) == [] <==> bb == [] && Unit(a) == ""
  {
  }

  /** What the plain numbers that end in a point are worth, when two plain numbers are added at once: their point is
      a unit to every other addition. */
  function Points(n: Numbers, bb: seq<string>, aa: seq<string>): real {
    if aa != [] && Plain(n, aa) && Plain(n, bb) then n.Part(TextOf(bb), ".") + n.Part(TextOf(aa), ".") else 0.0
  }

  /** They move from the unit "." to no unit. */
  function Moved(n: Numbers, bb: seq<string>, aa: seq<string>, unit: string): real {
    if unit == "" then Points(n, bb, aa) else if unit == "." then -Points(n, bb, aa) else 0.0
  }

  /** The amounts without a unit at the head of the added list are lost when they meet an empty list, and are more
      than one plain number. */
  function Lost(n: Numbers, bb: seq<string>, aa: seq<string>): real {
    if bb == [] && !Plain(n, aa) then Leading(n, aa) else 0.0
  }

  /** For every unit the total of the result is the sum of the totals of both lists, repeated units included,
      up to the rounding of the sums made, the points moved and the leading amounts lost. */
  lemma UnitsConserved(n: Numbers, bb: seq<string>, aa: seq<string>, unit: string)
    requires n.Sound() && n.AllNumeric(bb) && n.AllNumeric(aa)
    requires aa != [""] && bb != [""]
    ensures n.Total(Added(n, bb, aa), unit) ==
            n.Total(bb, unit) + n.Total(aa, unit) + Off(n, bb, aa, unit)
            + Moved(n, bb, aa, unit) - if unit == "" then Lost(n, bb, aa) else 0.0
    ensures n.AllNumeric(Added(n, bb, aa))
  {
    hide Unit, Amount, n.Part;
    if aa != [] && Plain(n, aa) && Plain(n, bb) {
      PlainAdded(n, bb, aa, unit);
    } else {
      AddAllConserves(n, bb, aa, unit);
      assert aa == [] ==> Leading(n, aa) == 0.0;
      assert bb == [] && Plain(n, aa) ==> aa == [];
    }
  }

  lemma PlainAdded(n: Numbers, bb: seq<string>, aa: seq<string>, unit: string)
    requires n.Sound() && aa != [] && Plain(n, aa) && Plain(n, bb) && aa != [""] && bb != [""]
    ensures n.Total(Added(n, bb, aa), unit) ==
            n.Total(bb, unit) + n.Total(aa, unit) + Off(n, bb, aa, unit) + Moved(n, bb, aa, unit)
    ensures n.AllNumeric(Added(n, bb, aa))
  {
    var b, a := TextOf(bb), TextOf(aa);
    var s := n.sum(b, a);
    NoUnit(n, s);
    PlainPart(n, a, unit);
    PlainPart(n, b, unit);
    PlainPart(n, a, ".");
    PlainPart(n, b, ".");
    TotalOfOne(n, s, unit);
    TotalOfOne(n, a, unit);
    TotalOfOne(n, b, unit);
    hide n.Part, Unit, Amount;
    assert aa == [a];
    assert bb == [] || bb == [b];
    EmptyPart(n, unit);
  }

  lemma TotalOfOne(n: Numbers, x: string, unit: string)
    ensures n.Total([x], unit) == n.Part(x, unit)
  {
    assert [x][..0] == [];
  }

  lemma EmptyPart(n: Numbers, unit: string)
    requires n.Sound()
    ensures n.Part("", unit) == 0.0
  {
  }

  /** A number is worth the same with a point behind it, which is then its unit. */
  lemma PlainPart(n: Numbers, s: string, unit: string)
    requires n.Sound() && n.num(s).Some?
    ensures n.Numeric(s)
    ensures n.Part(s, unit) == if unit == Unit(s) then n.num(s).value else 0.0
    ensures Unit(s) == "" || Unit(s) == "."
  {
    hide Unit, Amount;
    AllAmount(s);
  }

  lemma AllAmount(s: string)
    ensures Unit(s) == "" ==> Amount(s) == s
  {
  }

  /** When no sum is rounded, nothing is lost or gained in any unit if and only if the plain numbers with a point
      are worth nothing, and so are the leading amounts that are lost. */
  lemma NothingLostIff(n: Numbers, bb: seq<string>, aa: seq<string>)
    requires n.Sound() && n.Exact() && n.AllNumeric(bb) && n.AllNumeric(aa) && aa != [""] && bb != [""]
    ensures (forall unit :: n.Total(Added(n, bb, aa), unit) == n.Total(bb, unit) + n.Total(aa, unit))
            <==> Points(n, bb, aa) == 0.0 && Lost(n, bb, aa) == 0.0
  {
    hide Added, Points, Lost, Off, n.Total, n.Sound, n.Exact, n.Numeric;
    forall unit
      ensures n.Total(Added(n, bb, aa), unit) == n.Total(bb, unit) + n.Total(aa, unit)
              + Moved(n, bb, aa, unit) - if unit == "" then Lost(n, bb, aa) else 0.0
    {
      UnitsConserved(n, bb, aa, unit);
      NoneOff(n, bb, aa, unit);
    }
    assert n.Total(Added(n, bb, aa), ".") == n.Total(bb, ".") + n.Total(aa, ".") - Points(n, bb, aa);
    assert n.Total(Added(n, bb, aa), "") == n.Total(bb, "") + n.Total(aa, "") + Points(n, bb, aa) - Lost(n, bb, aa);
  }

  /** A number with a point, added to one without, takes what it is worth from the unit ".". */
  lemma PointTaken(n: Numbers, b: string, a: string)
    requires n.Sound() && n.Exact() && n.num(b).Some? && n.num(a).Some? && b != "" && Unit(b) == "" && Unit(a) == "."
    ensures n.AllNumeric([b]) && n.AllNumeric([a]) && Points(n, [b], [a]) == n.num(a).value
    ensures n.Total([b], ".") + n.Total([a], ".") == n.num(a).value && n.Total(Added(n, [b], [a]), ".") == 0.0
  {
    PlainPart(n, b, ".");
    PlainPart(n, a, ".");
    TotalOfOne(n, b, ".");
    TotalOfOne(n, a, ".");
    hide n.Sound, n.Exact, Unit, Added, n.Total, n.Part, Off;
    UnitsConserved(n, [b], [a], ".");
    NoneOff(n, [b], [a], ".");
  }

  /** So it is when the first added amount has a unit and the lists are not two plain numbers. */
  lemma AllWithUnitsConserved(n: Numbers, bb: seq<string>, aa: seq<string>, unit: string)
    requires n.Sound() && n.Exact() && n.AllNumeric(bb) && n.AllNumeric(aa) && aa != [""] && bb != [""]
    requires aa != [] && Unit(aa[0]) != "" && !(Plain(n, aa) && Plain(n, bb))
    ensures n.Total(Added(n, bb, aa), unit) == n.Total(bb, unit) + n.Total(aa, unit)
  {
    NoneLeading(n, aa);
    NothingLostIff(n, bb, aa);
  }

  /** And for two plain numbers when neither ends in a point. */
  lemma NoPoints(n: Numbers, bb: seq<string>, aa: seq<string>)
    requires aa != [] && Plain(n, aa) && Plain(n, bb) && Unit(TextOf(aa)) != "." && Unit(TextOf(bb)) != "."
    ensures Points(n, bb, aa) == 0.0 && Lost(n, bb, aa) == 0.0
  {
  }

  lemma NoneOff(n: Numbers, bb: seq<string>, aa: seq<string>, unit: string)
    requires n.Exact() && aa != [""]
    ensures Off(n, bb, aa, unit) == 0.0
  {
    hide n.RoundOff;
    NoStepOff(n, bb, aa, unit);
  }

  lemma {:induction false} NoStepOff(n: Numbers, bb: seq<string>, aa: seq<string>, unit: string)
    requires n.Exact()
    ensures AllOff(n, bb, aa, unit) == 0.0
    decreases |aa|
  {
    hide n.RoundOff, Unit, Amount, First, AddAll;
    if aa != [] {
      NoStepOff(n, bb, aa[..|aa| - 1], unit);
    }
  }

  lemma {:induction false} NoneLeading(n: Numbers, aa: seq<string>)
    requires aa != [] ==> Unit(aa[0]) != ""
    ensures Leading(n, aa) == 0.0
    decreases |aa|
  {
    if aa != [] {
      assert |aa| > 1 ==> aa[..|aa| - 1][0] == aa[0];
      NoneLeading(n, aa[..|aa| - 1]);
    }
  }

  lemma NoUnit(n: Numbers, s: string)
    requires n.num(s).Some? && EndsInDigit(s)
    ensures n.Numeric(s) && Unit(s) == "" && Amount(s) == s
  {
    SplitUnique(s, "");
    assert s + "" == s;
  }

  /** What is added to nothing leaves nothing if and only if it is nothing, or several amounts or one text that is no
      number, all without a unit: so two plain numbers are lost, but not with a point behind one. */
  lemma PlainNumbersLost(n: Numbers, aa: seq<string>)
    ensures Added(n, [], aa) == [] <==> aa == [] || (NoUnits(aa) && !Plain(n, aa))
  {
    AddedEmpty(n, [], aa);
  }

  lemma {:induction false} AddedEmpty(n: Numbers, bb: seq<string>, aa: seq<string>)
    ensures AddAll(n, bb, aa) == [] <==> bb == [] && NoUnits(aa)
    decreases |aa|
  {
    hide Unit, AddOne;
    if aa != [] {
      AddedEmpty(n, bb, aa[..|aa| - 1]);
      AddOneEmpty(n, AddAll(n, bb, aa[..|aa| - 1]), aa[|aa| - 1]);
      NoUnitsFront(aa);
    }
  }

  // ----- one amount for each unit -----

  predicate OnePerUnit(bb: seq<string>) {
    forall i, j :: 0 <= i < j < |bb| ==> Unit(bb[i]) != Unit(bb[j])
  }

  lemma UnitReadBack(number: string, a: string)
    requires number == "" || EndsInDigit(number)
    ensures Unit(number + Unit(a)) == Unit(a)
  {
    SplitUnique(number, Unit(a));
  }

  lemma AddOneOnePerUnit(n: Numbers, bb: seq<string>, a: string)
    requires n.Sound() && OnePerUnit(bb)
    ensures OnePerUnit(AddOne(n, bb, a))
  {
    hide First, Unit, Amount, UnitAt, EndsInDigit;
    var k := First(bb, Unit(a));
    if k < |bb| {
      UnitReadBack("", a);
      assert "" + Unit(a) == Unit(a);
      if n.num(Amount(a)).Some? && n.num(Amount(bb[k])).Some? && (Amount(bb[k]) != "" || Amount(a) != "") {
        UnitReadBack(n.sum(Amount(bb[k]), Amount(a)), a);
      }
      UnitKept(n, bb, a, k);
    }
  }

  lemma UnitKept(n: Numbers, bb: seq<string>, a: string, k: nat)
    requires k < |bb| == |AddOne(n, bb, a)| && OnePerUnit(bb) && Unit(AddOne(n, bb, a)[k]) == Unit(bb[k])
    requires forall i :: 0 <= i < |bb| && i != k ==> AddOne(n, bb, a)[i] == bb[i]
    ensures OnePerUnit(AddOne(n, bb, a))
  {
    hide AddOne, Unit;
  }

  /** A list with at most one amount for each unit stays so, whatever is added. */
  lemma {:induction false} OnePerUnitKept(n: Numbers, bb: seq<string>, aa: seq<string>)
    requires n.Sound() && OnePerUnit(bb)
    ensures OnePerUnit(AddAll(n, bb, aa)) && OnePerUnit(Added(n, bb, aa))
    decreases |aa|
  {
    hide Unit, Amount, AddOne, OnePerUnit;
    if aa != [] {
      OnePerUnitKept(n, bb, aa[..|aa| - 1]);
      AddOneOnePerUnit(n, AddAll(n, bb, aa[..|aa| - 1]), aa[|aa| - 1]);
      OneAlone(n.sum("", ""));
      if |aa| == 1 && |bb| <= 1 {
        OneAlone(n.sum(TextOf(bb), TextOf(aa)));
      }
    }
  }

  lemma OneAlone(s: string)
    ensures OnePerUnit([s])
  {
  }
}
