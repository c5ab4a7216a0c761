// Exact money on scaled integers: study-1/src/billing-amendment/money-decimal.ts.
module MoneyDecimals {
  import opened Wrappers
  import opened Decimals
  import opened Folds

  const COST_TEXT_MAX_LENGTH: nat := 64
  const COST_EXPONENT_MAX: int := 64

  // ---------- money decimals and what they denote ----------

  // The index of the first `c` at or after `from`, or the length when there is none.
  function IndexFrom(text: string, c: char, from: nat): (p: nat)
    requires from <= |text|
    ensures from <= p <= |text|
    ensures forall i | from <= i < p :: text[i] != c
    ensures p < |text| ==> text[p] == c
    decreases |text| - from
  {
    if from == |text| || text[from] == c then from else IndexFrom(text, c, from + 1)
  }

  function FirstIndex(text: string, c: char): (p: nat)
    ensures p <= |text|
  {
    IndexFrom(text, c, 0)
  }

  lemma FirstIndexIs(text: string, c: char, p: nat)
    requires p <= |text| && (p < |text| ==> text[p] == c) && forall i | 0 <= i < p :: text[i] != c
    ensures FirstIndex(text, c) == p
  {
    IndexFromIs(text, c, 0, p);
  }

  lemma {:induction false} IndexFromIs(text: string, c: char, from: nat, p: nat)
    requires from <= p <= |text| && (p < |text| ==> text[p] == c) && forall i | from <= i < p :: text[i] != c
    ensures IndexFrom(text, c, from) == p
    decreases p - from
  {
  }

  function IntegerPart(text: string): string {
    text[..FirstIndex(text, '.')]
  }

  function FractionPart(text: string): string {
    var p := FirstIndex(text, '.');
    if p == |text| then "" else text[p + 1..]
  }

  predicate IsInteger(s: string) {
    s == "0" || (s != "" && IsDigits(s) && s[0] != '0')
  }

  // The pattern (0|[1-9][0-9]*)(\.[0-9]+)?
  predicate IsMoneyDecimal(text: string) {
    && IsInteger(IntegerPart(text))
    && IsDigits(FractionPart(text))
    && (FirstIndex(text, '.') < |text| ==> FractionPart(text) != "")
  }

  // The amount a money decimal denotes.
  ghost function ValueOf(text: string): real
    requires IsMoneyDecimal(text)
  {
    Scaled(NatOf(IntegerPart(text)), 0) + Scaled(NatOf(FractionPart(text)), |FractionPart(text)|)
  }

  datatype ScaledAmount = ScaledAmount(units: nat, scale: int)

  function ToScaled(text: string): ScaledAmount
    requires IsMoneyDecimal(text)
  {
    ScaledAmount(NatOf(IntegerPart(text) + FractionPart(text)), |FractionPart(text)|)
  }

  function Rescale(amount: ScaledAmount, scale: int): nat
    requires amount.scale <= scale
  {
    amount.units * Pow10(scale - amount.scale)
  }

  // Reading digits across the point: the integer shifted by the fraction's length, plus the fraction.
  lemma SplitDigits(integer: string, fraction: string)
    requires IsDigits(integer) && IsDigits(fraction)
    ensures IsDigits(integer + fraction)
    ensures Scaled(NatOf(integer + fraction), |fraction|)
        == Scaled(NatOf(integer), 0) + Scaled(NatOf(fraction), |fraction|)
  {
    NatOfConcat(integer, fraction);
    WholeAndPart(NatOf(integer), NatOf(fraction), |fraction|);
  }

  lemma ToScaledIsExact(text: string)
    requires IsMoneyDecimal(text)
    ensures Scaled(ToScaled(text).units, ToScaled(text).scale) == ValueOf(text)
  {
    SplitDigits(IntegerPart(text), FractionPart(text));
  }

  // ---------- formatting ----------

  function PadStart(digits: string, length: nat): string {
    if |digits| >= length then digits else Zeros(length - |digits|) + digits
  }

  function WithoutTrailingZeros(s: string): (r: string)
    ensures |r| <= |s| && r == s[..|r|]
    ensures forall i | |r| <= i < |s| :: s[i] == '0'
    ensures r != "" ==> r[|r| - 1] != '0'
  {
    if s == "" || s[|s| - 1] != '0' then s else WithoutTrailingZeros(s[..|s| - 1])
  }

  function Joined(integer: string, fraction: string): string {
    if fraction == "" then integer else integer + "." + fraction
  }

  function FormatScaled(amount: ScaledAmount): string {
    if amount.scale <= 0 then NatText(amount.units * Pow10(-amount.scale))
    else
      var digits := PadStart(NatText(amount.units), amount.scale + 1);
      var cut := |digits| - amount.scale;
      Joined(digits[..cut], WithoutTrailingZeros(digits[cut..]))
  }

  lemma JoinedSplits(integer: string, fraction: string)
    requires IsInteger(integer) && IsDigits(fraction)
    ensures var text := Joined(integer, fraction);
            && IsMoneyDecimal(text) && IntegerPart(text) == integer && FractionPart(text) == fraction
            && ValueOf(text) == Scaled(NatOf(integer), 0) + Scaled(NatOf(fraction), |fraction|)
  {
    var text := Joined(integer, fraction);
    FirstIndexIs(text, '.', |integer|);
    assert text[..|integer|] == integer;
    assert fraction != "" ==> text[|integer| + 1..] == fraction;
  }

  // Dropping zeros at the end of the fraction keeps the amount.
  lemma TrailingZerosAreNothing(integer: string, fraction: string)
    requires IsDigits(integer) && IsDigits(fraction)
    ensures var kept := WithoutTrailingZeros(fraction);
            && IsDigits(kept) && IsDigits(integer + kept) && IsDigits(integer + fraction)
            && Scaled(NatOf(integer + kept), |kept|) == Scaled(NatOf(integer + fraction), |fraction|)
  {
    var kept := WithoutTrailingZeros(fraction);
    var zeros := fraction[|kept|..];
    assert forall i | 0 <= i < |zeros| :: zeros[i] == fraction[|kept| + i];
    ZerosAreZero(zeros);
    assert integer + fraction == (integer + kept) + zeros;
    NatOfConcat(integer + kept, zeros);
    Rescaling(NatOf(integer + kept), |kept|, |zeros|);
  }

  lemma PaddedByZeros(text: string, length: nat)
    requires IsDigits(text)
    ensures var digits := PadStart(text, length);
            |digits| >= length && IsDigits(digits) && NatOf(digits) == NatOf(text)
  {
    if |text| < length {
      var zeros := Zeros(length - |text|);
      ZerosAreZero(zeros);
      NatOfConcat(zeros, text);
    }
  }

  // Padded to more than `scale` digits, the digits before the last `scale` ones are an integer.
  lemma PaddedIsInteger(text: string, scale: nat)
    requires scale > 0 && IsInteger(text)
    ensures var digits := PadStart(text, scale + 1);
            |digits| > scale && IsInteger(digits[..|digits| - scale])
  {
  }

  // A money decimal without trailing zeros in its fraction.
  predicate IsCanonical(text: string) {
    IsMoneyDecimal(text) && (FractionPart(text) != "" ==> FractionPart(text)[|FractionPart(text)| - 1] != '0')
  }

  // What it takes for a text to denote an amount in canonical form.
  ghost predicate Spells(text: string, units: nat, scale: int) {
    IsCanonical(text) && ValueOf(text) == Scaled(units, scale)
  }

  lemma FormatWholeIsExact(units: nat, scale: int)
    requires scale <= 0
    ensures Spells(FormatScaled(ScaledAmount(units, scale)), units, scale)
  {
    var n := units * Pow10(-scale);
    JoinedSplits(NatText(n), "");
    Rescaling(units, scale, -scale);
  }

  lemma FormatFractionIsExact(units: nat, scale: nat)
    requires scale > 0
    ensures Spells(FormatScaled(ScaledAmount(units, scale)), units, scale)
  {
    hide PadStart, NatText, NatOf, IsDigits, IsInteger, Spells, WithoutTrailingZeros, Joined;
    var text := NatText(units);
    PaddedByZeros(text, scale + 1);
    PaddedIsInteger(text, scale);
    CutDigitsSpell(PadStart(text, scale + 1), scale);
  }

  // Digits cut before their last `scale` ones, without the zeros at the end.
  lemma CutDigitsSpell(digits: string, scale: nat)
    requires scale < |digits| && IsDigits(digits) && IsInteger(digits[..|digits| - scale])
    ensures var cut := |digits| - scale;
            Spells(Joined(digits[..cut], WithoutTrailingZeros(digits[cut..])), NatOf(digits), scale)
  {
    hide NatOf, IsInteger, Spells, WithoutTrailingZeros, Joined;
    var cut := |digits| - scale;
    assert digits == digits[..cut] + digits[cut..];
    JoinedSpells(digits[..cut], digits[cut..]);
  }

  lemma JoinedSpells(integer: string, fraction: string)
    requires IsInteger(integer) && IsDigits(fraction)
    ensures IsDigits(integer + fraction)
    ensures Spells(Joined(integer, WithoutTrailingZeros(fraction)), NatOf(integer + fraction), |fraction|)
  {
    TrailingZerosAreNothing(integer, fraction);
    JoinedSplits(integer, WithoutTrailingZeros(fraction));
    SplitDigits(integer, WithoutTrailingZeros(fraction));
  }

  // Formatting denotes exactly the scaled amount, as a money decimal without trailing zeros.
  lemma FormatIsExact(amount: ScaledAmount)
    ensures Spells(FormatScaled(amount), amount.units, amount.scale)
  {
    if amount.scale <= 0 {
      FormatWholeIsExact(amount.units, amount.scale);
    } else {
      FormatFractionIsExact(amount.units, amount.scale);
    }
  }

  // ---------- sum and comparison ----------

  predicate AllMoney(amounts: seq<string>) {
    forall i | 0 <= i < |amounts| :: IsMoneyDecimal(amounts[i])
  }

  function ScaleOf(text: string): nat {
    |FractionPart(text)|
  }

  predicate ScalesWithin(amounts: seq<string>, scale: nat) {
    forall i | 0 <= i < |amounts| :: ScaleOf(amounts[i]) <= scale
  }

  function WidestScale(amounts: seq<string>): (w: nat)
    ensures ScalesWithin(amounts, w)
  {
    MaxBy(ScaleOf, amounts)
  }

  function TotalUnits(amounts: seq<string>, scale: nat): nat
    requires AllMoney(amounts) && ScalesWithin(amounts, scale)
  {
    if amounts == [] then 0
    else TotalUnits(amounts[..|amounts| - 1], scale) + Rescale(ToScaled(amounts[|amounts| - 1]), scale)
  }

  function SumMoney(amounts: seq<string>): string
    requires AllMoney(amounts)
  {
    var scale := WidestScale(amounts);
    FormatScaled(ScaledAmount(TotalUnits(amounts, scale), scale))
  }

  ghost function SumOfValues(amounts: seq<string>): real
    requires AllMoney(amounts)
  {
    if amounts == [] then 0.0 else SumOfValues(amounts[..|amounts| - 1]) + ValueOf(amounts[|amounts| - 1])
  }

  lemma RescaleIsExact(text: string, scale: nat)
    requires IsMoneyDecimal(text) && ToScaled(text).scale <= scale
    ensures Scaled(Rescale(ToScaled(text), scale), scale) == ValueOf(text)
  {
    ToScaledIsExact(text);
    Rescaling(ToScaled(text).units, ToScaled(text).scale, scale - ToScaled(text).scale);
  }

  lemma {:induction false} TotalIsExact(amounts: seq<string>, scale: nat)
    requires AllMoney(amounts) && ScalesWithin(amounts, scale)
    ensures Scaled(TotalUnits(amounts, scale), scale) == SumOfValues(amounts)
  {
    if amounts == [] {
      ShiftZero(0 - scale);
    } else {
      var before, last := amounts[..|amounts| - 1], amounts[|amounts| - 1];
      TotalIsExact(before, scale);
      RescaleIsExact(last, scale);
      ScaledAdds(TotalUnits(before, scale), Rescale(ToScaled(last), scale), scale);
    }
  }

  // The sum is the canonical money decimal that denotes exactly the sum of the amounts.
  lemma SumIsExact(amounts: seq<string>)
    requires AllMoney(amounts)
    ensures IsCanonical(SumMoney(amounts)) && ValueOf(SumMoney(amounts)) == SumOfValues(amounts)
  {
    var scale := WidestScale(amounts);
    TotalIsExact(amounts, scale);
    FormatIsExact(ScaledAmount(TotalUnits(amounts, scale), scale));
  }

  function CompareMoney(a: string, b: string): int
    requires IsMoneyDecimal(a) && IsMoneyDecimal(b)
  {
    var left, right := ToScaled(a), ToScaled(b);
    var scale := if left.scale < right.scale then right.scale else left.scale;
    var difference := Rescale(left, scale) - Rescale(right, scale);
    if difference == 0 then 0 else if difference < 0 then -1 else 1
  }

  // The comparison is the order of the amounts, whatever their numbers of fractional digits.
  lemma CompareIsTheOrder(a: string, b: string)
    requires IsMoneyDecimal(a) && IsMoneyDecimal(b)
    ensures CompareMoney(a, b) == -1 <==> ValueOf(a) < ValueOf(b)
    ensures CompareMoney(a, b) == 0 <==> ValueOf(a) == ValueOf(b)
    ensures CompareMoney(a, b) == 1 <==> ValueOf(a) > ValueOf(b)
  {
    var left, right := ToScaled(a), ToScaled(b);
    var scale := if left.scale < right.scale then right.scale else left.scale;
    RescaleIsExact(a, scale);
    RescaleIsExact(b, scale);
    ScaledOrders(Rescale(left, scale), Rescale(right, scale), scale);
  }

  // ---------- any order ----------

  // A summand of the total, for any text.
  function UnitsAt(text: string, scale: nat): nat {
    if IsMoneyDecimal(text) && ScaleOf(text) <= scale then Rescale(ToScaled(text), scale) else 0
  }

  lemma {:induction false} TotalIsSum(amounts: seq<string>, scale: nat)
    requires AllMoney(amounts) && ScalesWithin(amounts, scale)
    ensures TotalUnits(amounts, scale) == SumBy(text => UnitsAt(text, scale), amounts)
  {
    if amounts != [] {
      TotalIsSum(amounts[..|amounts| - 1], scale);
    }
  }

  lemma WidestInAnyOrder(amounts: seq<string>, others: seq<string>)
    requires multiset(amounts) == multiset(others)
    ensures WidestScale(amounts) == WidestScale(others)
  {
    MaxByAnyOrder(ScaleOf, amounts, others);
    MaxByAnyOrder(ScaleOf, others, amounts);
  }

  // The sum is the same text whatever the order of the amounts.
  lemma SumInAnyOrder(amounts: seq<string>, others: seq<string>)
    requires AllMoney(amounts) && AllMoney(others) && multiset(amounts) == multiset(others)
    ensures SumMoney(amounts) == SumMoney(others)
  {
    WidestInAnyOrder(amounts, others);
    var scale := WidestScale(amounts);
    TotalIsSum(amounts, scale);
    TotalIsSum(others, scale);
    SumByAnyOrder(text => UnitsAt(text, scale), amounts, others);
  }

  // ---------- cost cells ----------

  // A cost text taken apart: digits, perhaps a point and more digits, perhaps an exponent.
  datatype Cost = Cost(integer: string, point: bool, fraction: string, exponent: Option<Exponent>)
  datatype Exponent = Exponent(marker: char, sign: string, digits: string)

  predicate LegalExponent(e: Exponent) {
    && IsMarker(e.marker)
    && (e.sign == "" || e.sign == "+" || e.sign == "-")
    && e.digits != "" && IsDigits(e.digits)
  }

  // The pattern [0-9]*(\.[0-9]*)?([eE][+-]?[0-9]+)?
  predicate LegalCost(c: Cost) {
    && IsDigits(c.integer) && IsDigits(c.fraction) && (!c.point ==> c.fraction == "")
    && (c.exponent.Some? ==> LegalExponent(c.exponent.value))
  }

  function MantissaText(c: Cost): string {
    if c.point then c.integer + "." + c.fraction else c.integer
  }

  function ExponentText(c: Cost): string {
    if c.exponent.None? then ""
    else [c.exponent.value.marker] + c.exponent.value.sign + c.exponent.value.digits
  }

  function CostText(c: Cost): string {
    MantissaText(c) + ExponentText(c)
  }

  function ExponentValue(c: Cost): int
    requires LegalCost(c)
  {
    if c.exponent.None? then 0
    else if c.exponent.value.sign == "-" then 0 - NatOf(c.exponent.value.digits)
    else NatOf(c.exponent.value.digits)
  }

  ghost function MantissaValue(c: Cost): real
    requires LegalCost(c)
  {
    Scaled(NatOf(c.integer), 0) + Scaled(NatOf(c.fraction), |c.fraction|)
  }

  // Mantissa times ten to the exponent.
  ghost function CostValue(c: Cost): real
    requires LegalCost(c)
  {
    Shift(MantissaValue(c), ExponentValue(c))
  }

  // What the reader bounds: the text's length, at least one digit and the exponent's magnitude.
  predicate WithinBounds(c: Cost)
    requires LegalCost(c)
  {
    && |CostText(c)| <= 64
    && |c.integer| + |c.fraction| > 0
    && -64 <= ExponentValue(c) <= 64
  }

  predicate IsMarker(c: char) {
    c == 'e' || c == 'E'
  }

  function MarkerFrom(text: string, from: nat): (p: nat)
    requires from <= |text|
    ensures from <= p <= |text|
    ensures forall i | from <= i < p :: !IsMarker(text[i])
    ensures p < |text| ==> IsMarker(text[p])
    decreases |text| - from
  {
    if from == |text| || IsMarker(text[from]) then from else MarkerFrom(text, from + 1)
  }

  function FirstMarker(text: string): (p: nat)
    ensures p <= |text|
  {
    MarkerFrom(text, 0)
  }

  lemma FirstMarkerIs(text: string, p: nat)
    requires p <= |text| && (p < |text| ==> IsMarker(text[p])) && forall i | 0 <= i < p :: !IsMarker(text[i])
    ensures FirstMarker(text) == p
  {
    MarkerFromIs(text, 0, p);
  }

  lemma {:induction false} MarkerFromIs(text: string, from: nat, p: nat)
    requires from <= p <= |text| && (p < |text| ==> IsMarker(text[p])) && forall i | from <= i < p :: !IsMarker(text[i])
    ensures MarkerFrom(text, from) == p
    decreases p - from
  {
  }

  function ExponentParts(tail: string): Option<Exponent> {
    if tail == "" then None
    else if |tail| > 1 && (tail[1] == '+' || tail[1] == '-') then Some(Exponent(tail[0], [tail[1]], tail[2..]))
    else Some(Exponent(tail[0], "", tail[1..]))
  }

  // Taking a text apart as the reader does: at its first e or E, then at its first point.
  function CostParts(text: string): Cost {
    var at := FirstMarker(text);
    var mantissa := text[..at];
    var p := FirstIndex(mantissa, '.');
    Cost(IntegerPart(mantissa), p < |mantissa|, FractionPart(mantissa), ExponentParts(text[at..]))
  }

  function ParseCurCost(text: string): Option<string> {
    if |text| > COST_TEXT_MAX_LENGTH then None
    else if IsMoneyDecimal(text) then Some(text)
    else
      var c := CostParts(text);
      if !LegalCost(c) then None
      else if |c.integer| + |c.fraction| == 0 then None
      else if ExponentValue(c) > COST_EXPONENT_MAX || -ExponentValue(c) > COST_EXPONENT_MAX then None
      else Some(FormatScaled(ScaledAmount(NatOf(c.integer + c.fraction), |c.fraction| - ExponentValue(c))))
  }

  lemma MantissaIsSpelled(mantissa: string)
    ensures mantissa == if FirstIndex(mantissa, '.') < |mantissa|
        then IntegerPart(mantissa) + "." + FractionPart(mantissa)
                        else IntegerPart(mantissa)
  {
    var p := FirstIndex(mantissa, '.');
    if p < |mantissa| {
      SplitAround(mantissa, p);
    }
  }

  lemma SplitAround(text: string, p: nat)
    requires p < |text| && text[p] == '.'
    ensures text == text[..p] + "." + text[p + 1..]
  {
  }

  lemma ExponentIsSpelled(tail: string)
    requires tail != ""
    ensures var e := ExponentParts(tail).value; tail == [e.marker] + e.sign + e.digits
  {
  }

  lemma PartsSpellText(text: string)
    ensures CostText(CostParts(text)) == text
  {
    var at := FirstMarker(text);
    assert text == text[..at] + text[at..];
    MantissaIsSpelled(text[..at]);
    if at < |text| {
      ExponentIsSpelled(text[at..]);
    }
  }

  lemma ExponentPartsUnique(e: Exponent)
    requires LegalExponent(e)
    ensures ExponentParts([e.marker] + e.sign + e.digits) == Some(e)
  {
  }

  // A legal cost text comes apart in one way only.
  lemma PartsAreUnique(c: Cost)
    requires LegalCost(c)
    ensures CostParts(CostText(c)) == c
  {
    var mantissa, tail, text := MantissaText(c), ExponentText(c), CostText(c);
    FirstMarkerIs(text, |mantissa|);
    assert text[..|mantissa|] == mantissa && text[|mantissa|..] == tail;
    FirstIndexIs(mantissa, '.', |c.integer|);
    assert mantissa[..|c.integer|] == c.integer;
    assert c.point ==> mantissa[|c.integer| + 1..] == c.fraction;
    if c.exponent.Some? {
      ExponentPartsUnique(c.exponent.value);
    }
  }

  lemma MoneyIsLegalCost(text: string)
    requires IsMoneyDecimal(text)
    ensures var c := CostParts(text);
            LegalCost(c) && ExponentValue(c) == 0 && |c.integer| > 0 && CostValue(c) == ValueOf(text)
  {
    var p := FirstIndex(text, '.');
    FirstMarkerIs(text, |text|) by {
      forall i | 0 <= i < |text|
        ensures !IsMarker(text[i])
      {
        if i < p {
          assert text[i] == IntegerPart(text)[i];
        } else if i > p {
          assert text[i] == FractionPart(text)[i - p - 1];
        }
      }
    }
    assert text[..|text|] == text && text[|text|..] == "";
  }

  lemma ExponentShifts(units: nat, scale: nat, exponent: int)
    ensures Scaled(units, scale - exponent) == Shift(Scaled(units, scale), exponent)
  {
    ShiftTwice(units as real, 0 - scale, exponent);
  }

  // The reader accepts exactly the legal cost texts within its bounds; what it returns is a money
  // decimal that denotes mantissa times ten to the exponent, in canonical form unless the text is a money
  // decimal, which is kept verbatim.
  lemma CostIsExact(c: Cost)
    requires LegalCost(c)
    ensures ParseCurCost(CostText(c)).Some? <==> WithinBounds(c)
    ensures WithinBounds(c) ==>
              var money := ParseCurCost(CostText(c)).value;
              IsMoneyDecimal(money) && ValueOf(money) == CostValue(c)
    ensures WithinBounds(c) && IsMoneyDecimal(CostText(c)) ==> ParseCurCost(CostText(c)).value == CostText(c)
    ensures WithinBounds(c) && !IsMoneyDecimal(CostText(c)) ==> IsCanonical(ParseCurCost(CostText(c)).value)
  {
    hide FormatScaled, NatOf, IsMoneyDecimal, ValueOf, CostText, CostParts, Shift, Scaled;
    PartsAreUnique(c);
    if IsMoneyDecimal(CostText(c)) {
      MoneyIsLegalCost(CostText(c));
    } else {
      ConvertedDigits(c.integer, c.fraction, ExponentValue(c));
    }
  }

  // Written out: digits, a point, digits and an exponent with its sign denote their digits times ten to
  // the exponent, and a marker without digits is refused.
  lemma ExponentForm(integer: string, fraction: string, marker: char, sign: string, digits: string)
    requires IsDigits(integer) && IsDigits(fraction) && IsDigits(digits) && integer + fraction != ""
    requires (marker == 'e' || marker == 'E') && (sign == "" || sign == "+" || sign == "-")
    ensures var text := integer + "." + fraction + [marker] + sign + digits;
      var exponent := if sign == "-" then 0 - NatOf(digits) else NatOf(digits);
      && (ParseCurCost(text).Some? <==> digits != "" && |text| <= 64 && NatOf(digits) <= 64)
      && (ParseCurCost(text).Some? ==>
            && IsMoneyDecimal(ParseCurCost(text).value)
            && ValueOf(ParseCurCost(text).value) ==
                 Shift(Scaled(NatOf(integer), 0) + Scaled(NatOf(fraction), |fraction|), exponent))
  {
    hide FormatScaled, NatOf, IsMoneyDecimal, ValueOf, Shift, Scaled, ParseCurCost;
    var c := Cost(integer, true, fraction, Some(Exponent(marker, sign, digits)));
    var text := integer + "." + fraction + [marker] + sign + digits;
    assert CostText(c) == text;
    if digits != "" {
      CostIsExact(c);
    } else {
      MarkerNeedsDigits(integer, fraction, marker, sign);
      assert text == integer + "." + fraction + [marker] + sign;
    }
  }

  lemma MarkerNeedsDigits(integer: string, fraction: string, marker: char, sign: string)
    requires IsDigits(integer) && IsDigits(fraction) && (marker == 'e' || marker == 'E')
    requires sign == "" || sign == "+" || sign == "-"
    ensures ParseCurCost(integer + "." + fraction + [marker] + sign).None?
  {
    hide FormatScaled, NatOf;
    var mantissa := integer + "." + fraction;
    var text := mantissa + [marker] + sign;
    FirstMarkerIs(text, |mantissa|);
    assert text[|mantissa|..] == [marker] + sign;
    var e := ExponentParts([marker] + sign).value;
    assert e.digits == "";
    if IsMoneyDecimal(text) {
      MoneyIsLegalCost(text);
    }
  }

  lemma FormatShiftedIsExact(units: nat, scale: nat, exponent: int)
    ensures var money := FormatScaled(ScaledAmount(units, scale - exponent));
            IsCanonical(money) && ValueOf(money) == Shift(Scaled(units, scale), exponent)
  {
    FormatIsExact(ScaledAmount(units, scale - exponent));
    ExponentShifts(units, scale, exponent);
  }

  lemma ConvertedDigits(integer: string, fraction: string, exponent: int)
    requires IsDigits(integer) && IsDigits(fraction)
    ensures IsDigits(integer + fraction)
    ensures var money := FormatScaled(ScaledAmount(NatOf(integer + fraction), |fraction| - exponent));
            && IsCanonical(money)
            && ValueOf(money) == Shift(Scaled(NatOf(integer), 0) + Scaled(NatOf(fraction), |fraction|), exponent)
  {
    hide FormatScaled, NatOf, IsMoneyDecimal, ValueOf;
    SplitDigits(integer, fraction);
    FormatShiftedIsExact(NatOf(integer + fraction), |fraction|, exponent);
  }

  // Every other text is refused.
  lemma OtherTextsAreRefused(text: string)
    requires forall c | LegalCost(c) :: CostText(c) != text
    ensures ParseCurCost(text).None?
  {
    PartsSpellText(text);
    if IsMoneyDecimal(text) {
      MoneyIsLegalCost(text);
    }
  }

  lemma AcceptedCostIsMoney(text: string)
    ensures ParseCurCost(text).Some? ==> IsMoneyDecimal(ParseCurCost(text).value)
  {
    hide FormatScaled, IsMoneyDecimal, CostParts;
    if ParseCurCost(text).Some? && !IsMoneyDecimal(text) {
      var c := CostParts(text);
      FormatIsExact(ScaledAmount(NatOf(c.integer + c.fraction), |c.fraction| - ExponentValue(c)));
    }
  }
}
