/** The numbers that texts are, but for exponents, and their sums: a sign, digits, and a point among them. */
module DecimalNumbers {
  import opened Common
  import opened AddUnits

  predicate AllDigits(s: string) {
    forall i :: 0 <= i < |s| ==> Digit(s[i])
  }

  function DigitsValue(s: string): nat
    requires AllDigits(s)
  {
    if s == "" then 0
    else
      assert Digit(s[|s| - 1]);
      DigitsValue(s[..|s| - 1]) * 10 + (s[|s| - 1] as int - '0' as int)
  }

  function Pow10(k: nat): (p: nat)
    ensures p > 0
  {
    if k == 0 then 1 else 10 * Pow10(k - 1)
  }

  // ----- reading -----

  function Body(s: string): string {
    if s != "" && (s[0] == '-' || s[0] == '+') then s[1..] else s
  }

  /** Where the first point is, or the length of the text if there is none. */
  function PointAt(s: string): (n: nat)
    ensures n <= |s|
    ensures forall i :: 0 <= i < n ==> s[i] != '.'
    ensures n < |s| ==> s[n] == '.'
  {
    if s == "" || s[0] == '.' then 0 else PointAt(s[1..]) + 1
  }

  function Whole(s: string): string {
    s[..PointAt(s)]
  }

  function Decimals(s: string): string {
    if PointAt(s) < |s| then s[PointAt(s) + 1..] else ""
  }

  /** The empty text is a number; others have at least one digit, a sign in front only, and at most one point. */
  predicate IsNumber(s: string) {
    s == "" || (AllDigits(Whole(Body(s)) + Decimals(Body(s))) && Whole(Body(s)) + Decimals(Body(s)) != "")
  }

  function Places(s: string): nat {
    |Decimals(Body(s))|
  }

  /** The number without its point. */
  function Mantissa(s: string): int
    requires IsNumber(s)
  {
    if s == "" then 0
    else
      var v: int := DigitsValue(Whole(Body(s)) + Decimals(Body(s)));
      if s[0] == '-' then -v else v
  }

  function Number(s: string): Option<real> {
    if IsNumber(s) then Some(Mantissa(s) as real / Pow10(Places(s)) as real) else None
  }

  // ----- writing -----

  /** A number in at least `k` digits. */
  function Padded(v: nat, k: nat): (s: string)
    ensures |s| >= k && s != "" && AllDigits(s)
    decreases v + k
  {
    (if v < 10 && k <= 1 then "" else Padded(v / 10, if k == 0 then 0 else k - 1)) + [(v % 10 + '0' as int) as char]
  }

  function Pointed(digits: string, places: nat): string
    requires places <= |digits|
  {
    if places == 0 then digits else digits[..|digits| - places] + "." + digits[|digits| - places..]
  }

  function Written(m: int, places: nat): string {
    (if m < 0 then "-" else "") + Pointed(Padded(if m < 0 then -m else m, places + 1), places)
  }

  function Max(a: nat, b: nat): nat {
    if a < b then b else a
  }

  function Scaled(s: string, places: nat): int
    requires IsNumber(s) && Places(s) <= places
  {
    Mantissa(s) * Pow10(places - Places(s))
  }

  /** The sum in as many decimals as the number that shows more of them. */
  function Sum(b: string, a: string): string {
    if IsNumber(b) && IsNumber(a) then
      var places := Max(Places(b), Places(a));
      Written(Scaled(b, places) + Scaled(a, places), places)
    else ""
  }

  // ----- what is written is read back -----

  lemma {:induction false} PaddedBack(v: nat, k: nat)
    ensures DigitsValue(Padded(v, k)) == v
    decreases v + k
  {
    var front := if v < 10 && k <= 1 then "" else Padded(v / 10, if k == 0 then 0 else k - 1);
    assert Padded(v, k)[..|Padded(v, k)| - 1] == front;
    if !(v < 10 && k <= 1) {
      PaddedBack(v / 10, if k == 0 then 0 else k - 1);
    }
  }

  lemma PointIs(s: string, k: nat)
    requires k <= |s| && (forall i :: 0 <= i < k ==> s[i] != '.') && (k < |s| ==> s[k] == '.')
    ensures PointAt(s) == k
  {
    if k < PointAt(s) {
      NoPointBefore(s, k);
    }
  }

  lemma NoPointBefore(s: string, i: nat)
    requires i < PointAt(s)
    ensures s[i] != '.'
  {
  }

  lemma PointedBack(digits: string, places: nat)
    requires AllDigits(digits) && places < |digits|
    ensures var t := Pointed(digits, places);
            && EndsInDigit(t) && Body(t) == t && Digit(t[0])
            && Whole(t) + Decimals(t) == digits && |Decimals(t)| == places
  {
    var t, k := Pointed(digits, places), |digits| - places;
    PointedAt(digits, places);
    PointIs(t, k);
    hide Pointed, PointAt;
    assert digits[..k] + digits[k..] == digits;
  }

  lemma PointedAt(digits: string, places: nat)
    requires AllDigits(digits) && places < |digits|
    ensures var t, k := Pointed(digits, places), |digits| - places;
            && t[..k] == digits[..k] && k <= |t| && (forall i :: 0 <= i < k ==> Digit(t[i]))
            && (places == 0 ==> |t| == k && digits[k..] == "")
            && (places > 0 ==> |t| > k && t[k] == '.' && t[k + 1..] == digits[k..])
            && EndsInDigit(t)
  {
    var t, k := Pointed(digits, places), |digits| - places;
    assert forall i :: 0 <= i < k ==> t[i] == digits[i];
    assert t[|t| - 1] == digits[|digits| - 1];
  }

  lemma WrittenBack(m: int, places: nat)
    ensures var s := Written(m, places);
            EndsInDigit(s) && IsNumber(s) && Mantissa(s) == m && Places(s) == places
  {
    hide Padded, Pointed, Whole, Decimals, DigitsValue;
    var v := if m < 0 then -m else m;
    var digits := Padded(v, places + 1);
    PaddedBack(v, places + 1);
    PointedBack(digits, places);
    var t, s := Pointed(digits, places), Written(m, places);
    if m < 0 {
      assert s[1..] == t;
      assert s[|s| - 1] == t[|t| - 1];
    } else {
      assert s == t;
    }
  }

  lemma {:induction false} PowSum(i: nat, j: nat)
    ensures Pow10(i + j) == Pow10(i) * Pow10(j)
  {
    if i > 0 {
      PowSum(i - 1, j);
    }
  }

  /** A fraction is not changed by a common factor. */
  lemma Widened(m: int, q: int, k: int, m': int, q': int)
    requires q > 0 && k > 0 && m' == m * k && q' == q * k && q' > 0
    ensures m' as real / q' as real == m as real / q as real
  {
    RealProduct(m, k);
    RealProduct(q, k);
    Cancel(m as real, q as real, k as real);
  }

  lemma Cancel(m: real, q: real, k: real)
    requires q > 0.0 && k > 0.0
    ensures q * k > 0.0 && (m * k) / (q * k) == m / q
  {
    var x := m / q;
    assert x * (q * k) == (x * q) * k == m * k;
  }

  lemma RealProduct(a: int, b: int)
    ensures (a * b) as real == a as real * b as real
  {
  }

  lemma ScaledIs(s: string, places: nat)
    requires IsNumber(s) && Places(s) <= places
    ensures Scaled(s, places) as real / Pow10(places) as real == Number(s).value
  {
    hide *;
    ScaledMeans(s, places);
    PowSum(Places(s), places - Places(s));
    Widened(Mantissa(s), Pow10(Places(s)), Pow10(places - Places(s)), Scaled(s, places), Pow10(places));
  }

  lemma ScaledMeans(s: string, places: nat)
    requires IsNumber(s) && Places(s) <= places
    ensures Scaled(s, places) == Mantissa(s) * Pow10(places - Places(s))
    ensures Number(s) == Some(Mantissa(s) as real / Pow10(Places(s)) as real)
  {
  }

  lemma SumOf(x: real, y: real, p: real)
    requires p > 0.0
    ensures (x + y) / p == x / p + y / p
  {
  }

  /** The text of a sum is worth the sum. */
  lemma SumBack(b: string, a: string)
    requires IsNumber(b) && IsNumber(a)
    ensures EndsInDigit(Sum(b, a)) && Number(Sum(b, a)) == Some(Number(b).value + Number(a).value)
  {
    hide IsNumber, Mantissa, Places, Pow10, Written, Scaled;
    var places := Max(Places(b), Places(a));
    var x, y := Scaled(b, places), Scaled(a, places);
    WrittenBack(x + y, places);
    ScaledIs(b, places);
    ScaledIs(a, places);
    SumOf(x as real, y as real, Pow10(places) as real);
  }

  // ----- a point at the end -----

  lemma PointAtEnd(s: string)
    requires IsNumber(s) && s != "" && !Digit(s[|s| - 1])
    ensures s[|s| - 1] == '.' && |Body(s)| >= 2 && PointAt(Body(s)) == |Body(s)| - 1
  {
    var b := Body(s);
    assert b != "";
    assert b[|b| - 1] == s[|s| - 1];
    var all := Whole(b) + Decimals(b);
    assert Digit(all[|all| - 1]);
  }

  lemma WithoutPoint(s: string, t: string)
    requires IsNumber(s) && s != "" && !Digit(s[|s| - 1]) && t == s[..|s| - 1]
    ensures EndsInDigit(t) && Number(t) == Number(s)
  {
    PointAtEnd(s);
    var b := Body(s);
    assert Body(t) == b[..|b| - 1];
    assert Whole(b) == Body(t) && Decimals(b) == "";
    assert Whole(b) + Decimals(b) == Body(t);
    assert forall i :: 0 <= i < |Body(t)| ==> Digit(Body(t)[i]);
    PointIs(Body(t), |Body(t)|);
    assert Body(t)[|Body(t)| - 1] == t[|t| - 1];
    hide PointAt, DigitsValue, Pow10;
    assert Whole(Body(t)) + Decimals(Body(t)) == Whole(b) + Decimals(b);
  }

  /** A point at the end of a number is its unit, and adds nothing to it. */
  lemma PointIsUnit(s: string)
    requires IsNumber(s)
    ensures Unit(s) == "" || (Unit(s) == "." && Number(Amount(s)) == Number(s))
  {
    hide Unit, Amount, IsNumber, Number;
    if s == "" {
      SplitUnique("", "");
      assert "" + "" == "";
    } else if Digit(s[|s| - 1]) {
      SplitUnique(s, "");
      assert s + "" == s;
    } else {
      var t := s[..|s| - 1];
      PointAtEnd(s);
      WithoutPoint(s, t);
      assert t + "." == s;
      SplitUnique(t, ".");
    }
  }

  /** These numbers meet the assumptions of the addition, and their sums are never rounded. */
  lemma DecimalsSound()
    ensures Numbers(Number, Sum).Sound() && Numbers(Number, Sum).Exact()
  {
    hide Body, Unit, Amount, Sum, Mantissa, Places;
    var n := Numbers(Number, Sum);
    EmptyIsZero();
    forall s | n.num(s).Some?
      ensures Unit(s) == "" || (Unit(s) == "." && n.num(Amount(s)) == n.num(s))
    {
      PointIsUnit(s);
    }
    forall a, b | n.num(a).Some? && n.num(b).Some?
      ensures n.num(n.sum(b, a)).Some? && EndsInDigit(n.sum(b, a)) && n.RoundOff(b, a) == 0.0
    {
      SumBack(b, a);
    }
  }

  lemma EmptyIsZero()
    ensures Number("") == Some(0.0)
  {
  }

  lemma OneDigit(s: string, t: string, c: char)
    requires '0' <= c <= '9' && |s| == 1 && s[0] == c && |t| == 2 && t[0] == c && t[1] == '.'
    ensures Number(s) == Some((c as int - '0' as int) as real) && Number(t) == Number(s)
    ensures Unit(s) == "" && Unit(t) == "."
  {
    var v := c as int - '0' as int;
    SplitUnique(s, "");
    SplitUnique(s, ".");
    PointIs(s, 1);
    PointIs(t, 1);
    assert s + "" == s && s + "." == t;
    assert DigitsValue(s) == v by { assert s[..0] == ""; }
    assert Whole(s) + Decimals(s) == s && Whole(t) + Decimals(t) == s;
    assert Pow10(0) == 1;
    hide DigitsValue, Pow10, PointAt, Unit, Amount;
    assert Number(s) == Some(v as real / 1.0);
    assert Number(t) == Some(v as real / 1.0);
  }

  lemma TwoAndThree()
    ensures Number("2") == Some(2.0) && Number("3.") == Some(3.0) && Unit("2") == "" && Unit("3.") == "."
  {
    hide *;
    OneDigit("2", "2.", '2');
    OneDigit("3", "3.", '3');
  }

  /** 3. added to 2 is 5, and no longer has the unit that the point was. */
  lemma PointMoves()
    ensures var n := Numbers(Number, Sum);
            && n.AllNumeric(["2"]) && n.AllNumeric(["3."]) && Points(n, ["2"], ["3."]) == 3.0
            && n.Total(["2"], ".") + n.Total(["3."], ".") == 3.0 && n.Total(Added(n, ["2"], ["3."]), ".") == 0.0
  {
    hide *;
    var n := Numbers(Number, Sum);
    DecimalsSound();
    TwoAndThree();
    PointTaken(n, "2", "3.");
  }
}
