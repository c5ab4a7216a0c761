// The form a value has among attribute values, and the decoder and encoder against it.
module AttributeWire {
  import opened Wrappers
  import opened Decimals
  import opened StoredNumbers
  import opened AttributeValues
  import opened AttributeValueTheorems

  // ---------- numbers ----------

  ghost predicate IsFraction(text: string) {
    text == "" || (|text| > 1 && text[0] == '.' && IsDigits(text[1..]))
  }

  ghost predicate IsPower(text: string) {
    text == "" || exists mark, sign, digits ::
      && text == mark + sign + digits && digits != "" && IsDigits(digits)
      && (mark == "e" || mark == "E") && (sign == "" || sign == "+" || sign == "-")
  }

  ghost predicate IsSpelt(text: string, sign: string, whole: string, fraction: string, power: string) {
    && text == sign + whole + fraction + power
    && (sign == "" || sign == "-") && whole != "" && IsDigits(whole) && IsFraction(fraction) && IsPower(power)
  }

  ghost predicate IsDecimal(text: string) {
    exists sign, whole, fraction, power :: IsSpelt(text, sign, whole, fraction, power)
  }

  lemma {:induction false} DigitsEndWhere(text: string, from: nat, end: nat)
    requires from <= end <= |text| && forall i | from <= i < end :: IsDigit(text[i])
    requires end == |text| || !IsDigit(text[end])
    ensures DigitsEnd(text, from) == end
    decreases |text| - from
  {
    if from < end {
      DigitsEndWhere(text, from + 1, end);
    }
  }

  lemma ExponentExactly(text: string, from: nat)
    requires from < |text|
    ensures IsExponent(text, from) <==> IsPower(text[from..])
  {
    var tail := text[from..];
    if IsExponent(text, from) {
      var at := if from + 1 < |text| && (text[from + 1] == '+' || text[from + 1] == '-') then from + 2 else from + 1;
      var mark, sign, digits := text[from..from + 1], text[from + 1..at], text[at..];
      assert tail == mark + sign + digits;
    }
    if IsPower(tail) {
      var mark, sign, digits :| tail == mark + sign + digits && digits != "" && IsDigits(digits)
        && (mark == "e" || mark == "E") && (sign == "" || sign == "+" || sign == "-");
      assert tail[0] == text[from] && tail[1] == text[from + 1] && IsDigit(digits[0]);
      assert text[from + 1 + |sign|..] == digits;
    }
  }

  // The number pattern accepts exactly the texts made of an optional minus, digits, an optional
  // fraction and an optional exponent.
  lemma NumberTextExactly(text: string)
    ensures IsNumberText(text) <==> IsDecimal(text)
  {
    if IsNumberText(text) {
      NumberTextIsDecimal(text);
    }
    if IsDecimal(text) {
      var sign, whole, fraction, power :| IsSpelt(text, sign, whole, fraction, power);
      DecimalIsNumberText(text, sign, whole, fraction, power);
    }
  }

  lemma NothingIsAPower()
    ensures IsPower("")
  {
  }

  lemma FractionFound(text: string, from: nat, end: nat)
    requires from <= end <= |text| && end != from + 1
    requires end > from ==> text[from] == '.' && forall i | from < i < end :: IsDigit(text[i])
    ensures IsFraction(text[from..end])
  {
  }

  lemma DigitsFound(text: string, from: nat, end: nat)
    requires from <= end <= |text| && forall i | from <= i < end :: IsDigit(text[i])
    ensures IsDigits(text[from..end])
  {
  }

  lemma SpeltIsDecimal(text: string, sign: string, whole: string, fraction: string, power: string)
    requires IsSpelt(text, sign, whole, fraction, power)
    ensures IsDecimal(text)
  {
    hide IsSpelt;
  }

  lemma PiecesSpell(text: string, first: nat, whole: nat, end: nat)
    requires first < whole <= end <= |text| && (first == 0 || (first == 1 && text[0] == '-'))
    requires IsDigits(text[first..whole]) && IsFraction(text[whole..end]) && IsPower(text[end..])
    ensures IsDecimal(text)
  {
    hide IsDigits, IsFraction, IsPower, IsDecimal;
    var sign, digits, fraction, power := text[..first], text[first..whole], text[whole..end], text[end..];
    assert text == sign + digits + fraction + power;
    assert sign == "" || sign == "-";
    SpeltIsDecimal(text, sign, digits, fraction, power);
  }

  lemma NumberTextIsDecimal(text: string)
    requires IsNumberText(text)
    ensures IsDecimal(text)
  {
    hide IsExponent, IsPower, IsFraction, IsDigits, IsDecimal;
    var first := SignLength(text);
    var whole := DigitsEnd(text, first);
    var end := if whole < |text| && text[whole] == '.' then DigitsEnd(text, whole + 1) else whole;
    var tail := text[end..];
    if end < |text| {
      ExponentExactly(text, end);
    } else {
      NothingIsAPower();
      assert tail == "";
    }
    FractionFound(text, whole, end);
    DigitsFound(text, first, whole);
    PiecesSpell(text, first, whole, end);
  }

  lemma DecimalIsNumberText(text: string, sign: string, whole: string, fraction: string, power: string)
    requires IsSpelt(text, sign, whole, fraction, power)
    ensures IsNumberText(text)
  {
    hide IsExponent, IsDigits, IsFraction, IsPower;
    var first, stop, end := |sign|, |sign + whole|, |sign + whole + fraction|;
    assert text[first..stop] == whole && text[stop..end] == fraction && text[end..] == power;
    Beginnings(whole, fraction, power);
    assert text[first] == whole[0];
    assert SignLength(text) == first;
    DigitsSpanned(text, first, stop);
    DigitsEndWhere(text, first, stop);
    if fraction != "" {
      assert text[stop + 1..end] == fraction[1..];
      DigitsSpanned(text, stop + 1, end);
      DigitsEndWhere(text, stop + 1, end);
    }
    if power != "" {
      ExponentExactly(text, end);
    }
  }

  lemma DigitsSpanned(text: string, from: nat, end: nat)
    requires from <= end <= |text| && IsDigits(text[from..end])
    ensures forall i | from <= i < end :: IsDigit(text[i])
  {
    assert forall i | from <= i < end :: text[i] == text[from..end][i - from];
  }

  // How the pieces begin.
  lemma Beginnings(whole: string, fraction: string, power: string)
    requires whole != "" && IsDigits(whole) && IsFraction(fraction) && IsPower(power)
    ensures IsDigit(whole[0]) && (power != "" ==> power[0] == 'e' || power[0] == 'E')
    ensures fraction != "" ==> fraction[0] == '.' && |fraction| > 1 && IsDigits(fraction[1..])
  {
  }

  // The numbers that can be stored: integers up to 2^53 - 1 and fractions not below the smallest magnitude.
  predicate IsStorable(n: Number) {
    n.Fraction? || (n.Integral? && -9007199254740991 <= n.value <= 9007199254740991)
  }

  lemma StorableNumbers(n: Number)
    ensures UnencodableReason(n).None? <==> IsStorable(n)
    ensures n.NotFinite? ==> UnencodableReason(n) == Some("NOT_FINITE")
    ensures n.Tiny? ==> UnencodableReason(n) == Some("BELOW_MINIMUM_MAGNITUDE")
    ensures n.Integral? && !IsStorable(n) ==> UnencodableReason(n) == Some("UNSAFE_INTEGER")
  {
  }

  // ---------- values ----------

  ghost predicate IsTagged(raw: Raw, member: string) {
    raw.RawObject? && |raw.members| == 1 && raw.members[0].0 == member
  }

  ghost function ContentOf(raw: Raw): Raw
    requires raw.RawObject? && |raw.members| == 1
  {
    raw.members[0].1
  }

  // The attribute value has the one member that names the type of the value, with its content.
  ghost predicate StandsFor(d: Doubles, raw: Raw, value: Json)
    decreases value
  {
    match value
    case Null => IsTagged(raw, "NULL") && ContentOf(raw) == RawBool(true)
    case Bool(b) => IsTagged(raw, "BOOL") && ContentOf(raw) == RawBool(b)
    case Str(s) => IsTagged(raw, "S") && ContentOf(raw) == RawStr(s)
    case Num(n) =>
      && IsTagged(raw, "N") && ContentOf(raw).RawStr?
      && IsDecimal(ContentOf(raw).s) && ReadNumber(d, ContentOf(raw).s) == n && IsStorable(n)
    case List(items) =>
      && IsTagged(raw, "L") && ContentOf(raw).RawArray? && |ContentOf(raw).items| == |items|
      && forall i | 0 <= i < |items| :: StandsFor(d, ContentOf(raw).items[i], items[i])
    case Obj(members) =>
      && IsTagged(raw, "M") && ContentOf(raw).RawObject? && |ContentOf(raw).members| == |members|
      && forall i | 0 <= i < |members| ::
           ContentOf(raw).members[i].0 == members[i].0 && StandsFor(d, ContentOf(raw).members[i].1, members[i].1)
  }

  // The decoder accepts exactly what stands for a value whose levels fit, as that value.
  lemma {:induction false} DecodedExactly(d: Doubles, raw: Raw, depth: nat, value: Json)
    ensures DecodeAtDepth(d, raw, depth) == Ok(value) <==> StandsFor(d, raw, value) && Fits(Levels(value), depth)
    decreases raw, 1, 0
  {
    hide IsNumberText, IsDecimal, ReadNumber, UnencodableReason, IsStorable, DecodeItems, DecodeMembers, LevelsWithin;
    if raw.RawObject? && |raw.members| == 1 {
      var (member, content) := raw.members[0];
      if member == "N" && content.RawStr? {
        NumberTextExactly(content.s);
        StorableNumbers(ReadNumber(d, content.s));
      } else if member == "L" && content.RawArray? && value.List? && depth < MAX_NESTING_DEPTH {
        ItemsDecodedExactly(d, content, depth + 1, |content.items|, value);
        assert value.items[..|value.items|] == value.items;
      } else if member == "M" && content.RawObject? && value.Obj? && depth < MAX_NESTING_DEPTH {
        MembersDecodedExactly(d, content, depth + 1, |content.members|, value);
        assert value.members[..|value.members|] == value.members;
      }
    }
  }

  lemma {:induction false} ItemsDecodedExactly(d: Doubles, content: Raw, depth: nat, n: nat, value: Json)
    requires content.RawArray? && n <= |content.items| && value.List?
    ensures DecodeItems(d, content, depth, n).Ok? ==> |DecodeItems(d, content, depth, n).value| == n
    ensures n <= |value.items| ==>
              (DecodeItems(d, content, depth, n) == Ok(value.items[..n]) <==>
               (forall i | 0 <= i < n :: StandsFor(d, content.items[i], value.items[i])) &&
               Fits(LevelsWithin(value, n), depth))
    decreases content, 0, n
  {
    hide StandsFor, DecodeAtDepth, Levels;
    if n > 0 {
      var m := n - 1;
      ItemsDecodedExactly(d, content, depth, m, value);
      if n <= |value.items| {
        DecodedExactly(d, content.items[m], depth, value.items[m]);
        assert value.items[..n] == value.items[..m] + [value.items[m]];
        assert value.items[..n][..m] == value.items[..m];
      }
    }
  }

  lemma {:induction false} MembersDecodedExactly(d: Doubles, content: Raw, depth: nat, n: nat, value: Json)
    requires content.RawObject? && n <= |content.members| && value.Obj?
    ensures DecodeMembers(d, content, depth, n).Ok? ==> |DecodeMembers(d, content, depth, n).value| == n
    ensures n <= |value.members| ==>
              (DecodeMembers(d, content, depth, n) == Ok(value.members[..n]) <==>
               (forall i | 0 <= i < n :: content.members[i].0 == value.members[i].0 &&
                                         StandsFor(d, content.members[i].1, value.members[i].1)) &&
               Fits(LevelsWithin(value, n), depth))
    decreases content, 0, n
  {
    hide StandsFor, DecodeAtDepth, Levels;
    if n > 0 {
      var m := n - 1;
      MembersDecodedExactly(d, content, depth, m, value);
      if n <= |value.members| {
        DecodedExactly(d, content.members[m].1, depth, value.members[m].1);
        assert value.members[..n] == value.members[..m] + [value.members[m]];
        assert value.members[..n][..m] == value.members[..m];
      }
    }
  }

  // The last member of a name is a string.
  ghost predicate NamesString(members: seq<(string, Json)>, name: string) {
    exists i | 0 <= i < |members| ::
      && members[i].0 == name && members[i].1.Str?
      && forall j | i < j < |members| :: members[j].0 != name
  }

  lemma {:induction false} NamedExactly(members: seq<(string, Json)>, name: string)
    ensures ValueNamed(members, name).None? <==> forall i | 0 <= i < |members| :: members[i].0 != name
    ensures ValueNamed(members, name).Some? && ValueNamed(members, name).value.Str? <==> NamesString(members, name)
  {
    if members != [] {
      var last := |members| - 1;
      var before := members[..last];
      NamedExactly(before, name);
      if members[last].0 != name {
        assert NamesString(before, name) <==> NamesString(members, name) by {
          if NamesString(before, name) {
            var i :| 0 <= i < last && before[i].0 == name && before[i].1.Str?
              && forall j | i < j < last :: before[j].0 != name;
            assert members[i] == before[i] && forall j | i < j < last :: members[j] == before[j];
          }
        }
      }
    }
  }

  // An item is accepted exactly when its members stand for the values in order, each fits by itself,
  // and the key is two strings.
  lemma ItemDecodedExactly(d: Doubles, raw: Raw, members: seq<(string, Json)>)
    ensures DecodeItem(d, raw) == Ok(members) <==>
              && raw.RawObject? && |raw.members| == |members|
              && (forall i | 0 <= i < |members| ::
                    raw.members[i].0 == members[i].0 && StandsFor(d, raw.members[i].1, members[i].1))
              && Fits(LevelsWithin(Obj(members), |members|), 0)
              && NamesString(members, "pk") && NamesString(members, "sk")
    ensures raw.RawObject? && DecodeItem(d, raw) == Err(KeyRefused) ==>
              exists decoded :: DecodeMembers(d, raw, 0, |raw.members|) == Ok(decoded) &&
                !(NamesString(decoded, "pk") && NamesString(decoded, "sk"))
  {
    hide StandsFor, LevelsWithin, DecodeMembers, NamesString, ValueNamed;
    NamedExactly(members, "pk");
    NamedExactly(members, "sk");
    if raw.RawObject? {
      var n := |raw.members|;
      MembersDecodedExactly(d, raw, 0, n, Obj(members));
      assert members[..|members|] == members;
      match DecodeMembers(d, raw, 0, n) {
        case Ok(decoded) =>
          NamedExactly(decoded, "pk");
          NamedExactly(decoded, "sk");
        case Err(error) =>
          MemberIsRefusedFor(d, raw, 0, n);
      }
    }
  }

  lemma {:induction false} MemberIsRefusedFor(d: Doubles, content: Raw, depth: nat, n: nat)
    requires content.RawObject? && n <= |content.members| && DecodeMembers(d, content, depth, n).Err?
    ensures DecodeMembers(d, content, depth, n).error != KeyRefused
  {
    hide FaultWithin;
    RefusedMember(d, content, depth, n);
    forall i | 0 <= i < n
      ensures !FaultWithin(d, content.members[i].1, depth, KeyRefused)
    {
      KeysAreNoFault(d, content.members[i].1, depth);
    }
  }

  lemma {:induction false} KeysAreNoFault(d: Doubles, raw: Raw, depth: nat)
    ensures !FaultWithin(d, raw, depth, KeyRefused)
    decreases raw
  {
    if IsTagged(raw, "L") && ContentOf(raw).RawArray? {
      forall i | 0 <= i < |ContentOf(raw).items|
        ensures !FaultWithin(d, ContentOf(raw).items[i], depth + 1, KeyRefused)
      {
        KeysAreNoFault(d, ContentOf(raw).items[i], depth + 1);
      }
    } else if IsTagged(raw, "M") && ContentOf(raw).RawObject? {
      forall i | 0 <= i < |ContentOf(raw).members|
        ensures !FaultWithin(d, ContentOf(raw).members[i].1, depth + 1, KeyRefused)
      {
        KeysAreNoFault(d, ContentOf(raw).members[i].1, depth + 1);
      }
    }
  }

  // What the encoder writes stands for the value it was given.
  lemma {:induction false} EncodedStandsFor(d: Doubles, value: Json)
    requires ReadsBack(d) && Encode(d, value).Ok?
    ensures StandsFor(d, Encode(d, value).value, value)
    decreases value, 1, 0
  {
    hide ReadsBack, IsNumberText, IsDecimal, ReadNumber, NumberText, UnencodableReason, IsStorable;
    match value {
      case Num(n) =>
        EncodableIsReadBack(d, n);
        NumberTextExactly(NumberText(d, n));
        StorableNumbers(n);
      case List(items) =>
        EncodedItemsStand(d, value, |items|);
      case Obj(members) =>
        EncodedMembersStand(d, value, |members|);
      case _ =>
    }
  }

  lemma {:induction false} EncodedItemsStand(d: Doubles, value: Json, n: nat)
    requires ReadsBack(d) && value.List? && n <= |value.items| && EncodeItems(d, value, n).Ok?
    ensures |EncodeItems(d, value, n).value| == n
    ensures forall i | 0 <= i < n :: StandsFor(d, EncodeItems(d, value, n).value[i], value.items[i])
    decreases value, 0, n
  {
    hide ReadsBack, StandsFor, Encode;
    if n > 0 {
      EncodedItemsStand(d, value, n - 1);
      EncodedStandsFor(d, value.items[n - 1]);
    }
  }

  lemma {:induction false} EncodedMembersStand(d: Doubles, value: Json, n: nat)
    requires ReadsBack(d) && value.Obj? && n <= |value.members| && EncodeMembers(d, value, n).Ok?
    ensures |EncodeMembers(d, value, n).value| == n
    ensures forall i | 0 <= i < n ::
              EncodeMembers(d, value, n).value[i].0 == value.members[i].0 &&
              StandsFor(d, EncodeMembers(d, value, n).value[i].1, value.members[i].1)
    decreases value, 0, n
  {
    hide ReadsBack, StandsFor, Encode;
    if n > 0 {
      EncodedMembersStand(d, value, n - 1);
      EncodedStandsFor(d, value.members[n - 1].1);
    }
  }

  // ---------- why data is refused ----------

  // What is wrong with an attribute value itself, enclosed by `depth` lists and maps.
  ghost predicate HasFault(d: Doubles, raw: Raw, depth: nat, error: CodecError) {
    match error
    case NestedTooDeep => (IsTagged(raw, "L") || IsTagged(raw, "M")) && depth >= 32
    case NumberRefused =>
      && IsTagged(raw, "N") && ContentOf(raw).RawStr?
      && IsDecimal(ContentOf(raw).s) && !IsStorable(ReadNumber(d, ContentOf(raw).s))
    case ShapeRefused =>
      && !(IsTagged(raw, "NULL") && ContentOf(raw) == RawBool(true))
      && !(IsTagged(raw, "BOOL") && ContentOf(raw).RawBool?)
      && !(IsTagged(raw, "S") && ContentOf(raw).RawStr?)
      && !(IsTagged(raw, "N") && ContentOf(raw).RawStr? && IsDecimal(ContentOf(raw).s))
      && !(IsTagged(raw, "L") && ContentOf(raw).RawArray?)
      && !(IsTagged(raw, "M") && ContentOf(raw).RawObject?)
    case KeyRefused => false
  }

  // The fault is at the value itself or at one nested in it.
  ghost predicate FaultWithin(d: Doubles, raw: Raw, depth: nat, error: CodecError)
    decreases raw
  {
    || HasFault(d, raw, depth, error)
    || (IsTagged(raw, "L") && ContentOf(raw).RawArray? &&
        exists i | 0 <= i < |ContentOf(raw).items| :: FaultWithin(d, ContentOf(raw).items[i], depth + 1, error))
    || (IsTagged(raw, "M") && ContentOf(raw).RawObject? &&
        exists i | 0 <= i < |ContentOf(raw).members| :: FaultWithin(d, ContentOf(raw).members[i].1, depth + 1, error))
  }

  // A refusal names a fault the data has.
  lemma {:induction false} RefusalHasACause(d: Doubles, raw: Raw, depth: nat)
    requires DecodeAtDepth(d, raw, depth).Err?
    ensures FaultWithin(d, raw, depth, DecodeAtDepth(d, raw, depth).error)
    decreases raw, 1, 0
  {
    hide IsNumberText, IsDecimal, ReadNumber, UnencodableReason, IsStorable;
    if raw.RawObject? && |raw.members| == 1 {
      var (member, content) := raw.members[0];
      if member == "N" && content.RawStr? {
        NumberTextExactly(content.s);
        StorableNumbers(ReadNumber(d, content.s));
      } else if member == "L" && content.RawArray? && depth < MAX_NESTING_DEPTH {
        RefusedItem(d, content, depth + 1, |content.items|);
      } else if member == "M" && content.RawObject? && depth < MAX_NESTING_DEPTH {
        RefusedMember(d, content, depth + 1, |content.members|);
      }
    }
  }

  lemma {:induction false} RefusedItem(d: Doubles, content: Raw, depth: nat, n: nat)
    requires content.RawArray? && n <= |content.items| && DecodeItems(d, content, depth, n).Err?
    ensures exists i | 0 <= i < n :: FaultWithin(d, content.items[i], depth, DecodeItems(d, content, depth, n).error)
    decreases content, 0, n
  {
    hide FaultWithin, DecodeAtDepth;
    if DecodeItems(d, content, depth, n - 1).Err? {
      RefusedItem(d, content, depth, n - 1);
    } else {
      RefusalHasACause(d, content.items[n - 1], depth);
    }
  }

  lemma {:induction false} RefusedMember(d: Doubles, content: Raw, depth: nat, n: nat)
    requires content.RawObject? && n <= |content.members| && DecodeMembers(d, content, depth, n).Err?
    ensures exists i | 0 <= i < n ::
              FaultWithin(d, content.members[i].1, depth, DecodeMembers(d, content, depth, n).error)
    decreases content, 0, n
  {
    hide FaultWithin, DecodeAtDepth;
    if DecodeMembers(d, content, depth, n - 1).Err? {
      RefusedMember(d, content, depth, n - 1);
    } else {
      RefusalHasACause(d, content.members[n - 1].1, depth);
    }
  }

  // ---------- what the validator lists ----------

  function BadNumbers(value: Json): nat
    decreases value, 1, 0
  {
    if value.Num? then (if IsStorable(value.n) then 0 else 1) else BadNumbersWithin(value, Width(value))
  }

  function BadNumbersWithin(value: Json, n: nat): nat
    requires n <= Width(value)
    decreases value, 0, n
  {
    if n == 0 then 0 else BadNumbersWithin(value, n - 1) + BadNumbers(Nested(value, n - 1))
  }

  // The validator reports a nesting exactly for a value whose levels do not fit; of one that fits it
  // lists every unstorable number once, and nothing else.
  lemma {:induction false} ViolationsExactly(value: Json, depth: nat)
    ensures NestsTooDeep in Violations(value, depth) <==> !Fits(Levels(value), depth)
    ensures Fits(Levels(value), depth) ==> |Violations(value, depth)| == BadNumbers(value)
    decreases value, 1, 0
  {
    if value.Num? {
      StorableNumbers(value.n);
    } else if (value.List? || value.Obj?) && depth < MAX_NESTING_DEPTH {
      ViolationsWithinExactly(value, depth + 1, Width(value));
    }
  }

  lemma {:induction false} ViolationsWithinExactly(value: Json, depth: nat, n: nat)
    requires n <= Width(value)
    ensures NestsTooDeep in ViolationsWithin(value, depth, n) <==> !Fits(LevelsWithin(value, n), depth)
    ensures Fits(LevelsWithin(value, n), depth) ==> |ViolationsWithin(value, depth, n)| == BadNumbersWithin(value, n)
    decreases value, 0, n
  {
    hide Violations, Levels, BadNumbers;
    if n > 0 {
      ViolationsWithinExactly(value, depth, n - 1);
      ViolationsExactly(Nested(value, n - 1), depth);
    }
  }
}
