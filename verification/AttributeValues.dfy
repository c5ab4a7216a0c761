// JSON values as DynamoDB attribute values: study-1/src/durable-store/attribute-value-codec.ts and
// attribute-value-limits.ts.

module StoredNumbers {
  import opened Wrappers
  import opened Decimals

  const MAX_SAFE_INTEGER: int := 9007199254740991

  // A JavaScript number: an integer, a fraction of magnitude at least 1E-130, a smaller nonzero one,
  // or no finite number. Negative zero is the integer zero.
  datatype Number = Integral(value: int) | Fraction(id: nat) | Tiny(id: nat) | NotFinite(name: string)

  // How the platform prints and reads every number that is not a safe integer.
  datatype Doubles = Doubles(show: Number -> string, read: string -> Number)

  predicate IsSafe(i: int) {
    -MAX_SAFE_INTEGER <= i <= MAX_SAFE_INTEGER
  }

  function UnencodableReason(n: Number): Option<string> {
    match n
    case NotFinite(_) => Some("NOT_FINITE")
    case Integral(i) => if IsSafe(i) then None else Some("UNSAFE_INTEGER")
    case Tiny(_) => Some("BELOW_MINIMUM_MAGNITUDE")
    case Fraction(_) => None
  }

  function IntText(i: int): string {
    if i < 0 then "-" + NatText(-i) else NatText(i)
  }

  function NumberText(d: Doubles, n: Number): string {
    if n.Integral? && IsSafe(n.value) then IntText(n.value) else d.show(n)
  }

  // ---------- the number pattern ----------

  function DigitsEnd(text: string, from: nat): (end: nat)
    requires from <= |text|
    ensures from <= end <= |text| && forall i | from <= i < end :: IsDigit(text[i])
    ensures end < |text| ==> !IsDigit(text[end])
    decreases |text| - from
  {
    if from == |text| || !IsDigit(text[from]) then from else DigitsEnd(text, from + 1)
  }

  predicate IsExponent(text: string, from: nat)
    requires from < |text|
  {
    && (text[from] == 'e' || text[from] == 'E')
    && var signed := from + 1 < |text| && (text[from + 1] == '+' || text[from + 1] == '-');
       var digits := if signed then from + 2 else from + 1;
       digits < |text| && IsDigits(text[digits..])
  }

  // An optional minus, digits, an optional fraction and an optional exponent.
  predicate IsNumberText(text: string) {
    var first := SignLength(text);
    var whole := DigitsEnd(text, first);
    var end := if whole < |text| && text[whole] == '.' then DigitsEnd(text, whole + 1) else whole;
    whole > first && end != whole + 1 && (end == |text| || IsExponent(text, end))
  }

  function SignLength(text: string): (n: nat)
    ensures n <= |text|
  {
    if text != "" && text[0] == '-' then 1 else 0
  }

  predicate IsWholeText(text: string) {
    SignLength(text) < |text| && IsDigits(text[SignLength(text)..])
  }

  function WholeValue(text: string): int
    requires IsWholeText(text)
  {
    if SignLength(text) == 1 then 0 - NatOf(text[1..]) else NatOf(text)
  }

  // The number a text denotes: exactly, where the text is a whole number in the safe range.
  function ReadNumber(d: Doubles, text: string): Number {
    if IsWholeText(text) && IsSafe(WholeValue(text)) then Integral(WholeValue(text)) else d.read(text)
  }

  // The platform reads back the fractions it prints, as numbers of the accepted form.
  ghost predicate ReadsBack(d: Doubles) {
    forall id: nat ::
      IsNumberText(d.show(Fraction(id))) && ReadNumber(d, d.show(Fraction(id))) == Fraction(id)
  }

  // A number without a refusal is read back from its text.
  lemma EncodableIsReadBack(d: Doubles, n: Number)
    requires ReadsBack(d) && UnencodableReason(n).None?
    ensures IsNumberText(NumberText(d, n)) && ReadNumber(d, NumberText(d, n)) == n
  {
  }
}

module AttributeValues {
  import opened Wrappers
  import opened StoredNumbers

  const MAX_NESTING_DEPTH: nat := 32

  // Objects list their members in enumeration order.
  datatype Json =
    | Null
    | Bool(b: bool)
    | Str(s: string)
    | Num(n: Number)
    | List(items: seq<Json>)
    | Obj(members: seq<(string, Json)>)

  // Any data handed to the decoder.
  datatype Raw =
    | RawNull
    | RawBool(b: bool)
    | RawStr(s: string)
    | RawArray(items: seq<Raw>)
    | RawObject(members: seq<(string, Raw)>)
    | RawOther

  datatype CodecError = NumberRefused | ShapeRefused | NestedTooDeep | KeyRefused

  type Outcome<T> = Result<T, CodecError>

  // ---------- encoding ----------

  function Tagged(member: string, content: Raw): Raw {
    RawObject([(member, content)])
  }

  function Encode(d: Doubles, value: Json): Outcome<Raw>
    decreases value, 1, 0
  {
    match value
    case Null => Ok(Tagged("NULL", RawBool(true)))
    case Bool(b) => Ok(Tagged("BOOL", RawBool(b)))
    case Str(s) => Ok(Tagged("S", RawStr(s)))
    case Num(n) => if UnencodableReason(n).Some? then Err(NumberRefused) else Ok(Tagged("N", RawStr(NumberText(d, n))))
    case List(items) =>
      (match EncodeItems(d, value, |items|)
       case Err(error) => Err(error)
       case Ok(encoded) => Ok(Tagged("L", RawArray(encoded))))
    case Obj(members) =>
      (match EncodeMembers(d, value, |members|)
       case Err(error) => Err(error)
       case Ok(encoded) => Ok(Tagged("M", RawObject(encoded))))
  }

  // The first `n` elements of a list, and members of an object.
  function EncodeItems(d: Doubles, value: Json, n: nat): Outcome<seq<Raw>>
    requires value.List? && n <= |value.items|
    decreases value, 0, n
  {
    if n == 0 then Ok([])
    else match EncodeItems(d, value, n - 1)
      case Err(error) => Err(error)
      case Ok(before) =>
        match Encode(d, value.items[n - 1])
        case Err(error) => Err(error)
        case Ok(encoded) => Ok(before + [encoded])
  }

  function EncodeMembers(d: Doubles, value: Json, n: nat): Outcome<seq<(string, Raw)>>
    requires value.Obj? && n <= |value.members|
    decreases value, 0, n
  {
    if n == 0 then Ok([])
    else match EncodeMembers(d, value, n - 1)
      case Err(error) => Err(error)
      case Ok(before) =>
        match Encode(d, value.members[n - 1].1)
        case Err(error) => Err(error)
        case Ok(encoded) => Ok(before + [(value.members[n - 1].0, encoded)])
  }

  // ---------- decoding ----------

  function DecodeNumber(d: Doubles, content: Raw): Outcome<Json> {
    if !content.RawStr? || !IsNumberText(content.s) then Err(ShapeRefused)
    else
      var n := ReadNumber(d, content.s);
      if UnencodableReason(n).Some? then Err(NumberRefused) else Ok(Num(n))
  }

  function DecodeAtDepth(d: Doubles, raw: Raw, depth: nat): Outcome<Json>
    decreases raw, 1, 0
  {
    if !raw.RawObject? || |raw.members| != 1 then Err(ShapeRefused)
    else
      var (member, content) := raw.members[0];
      if member == "S" then (if content.RawStr? then Ok(Str(content.s)) else Err(ShapeRefused))
      else if member == "N" then DecodeNumber(d, content)
      else if member == "BOOL" then (if content.RawBool? then Ok(Bool(content.b)) else Err(ShapeRefused))
      else if member == "NULL" then (if content == RawBool(true) then Ok(Null) else Err(ShapeRefused))
      else if member == "L" then
        if depth >= MAX_NESTING_DEPTH then Err(NestedTooDeep)
        else if !content.RawArray? then Err(ShapeRefused)
        else match DecodeItems(d, content, depth + 1, |content.items|)
          case Err(error) => Err(error)
          case Ok(items) => Ok(List(items))
      else if member == "M" then
        if depth >= MAX_NESTING_DEPTH then Err(NestedTooDeep)
        else if !content.RawObject? then Err(ShapeRefused)
        else match DecodeMembers(d, content, depth + 1, |content.members|)
          case Err(error) => Err(error)
          case Ok(members) => Ok(Obj(members))
      else Err(ShapeRefused)
  }

  // The first `n` elements of an array, and members of an object, at the depth of the elements.
  function DecodeItems(d: Doubles, content: Raw, depth: nat, n: nat): Outcome<seq<Json>>
    requires content.RawArray? && n <= |content.items|
    decreases content, 0, n
  {
    if n == 0 then Ok([])
    else match DecodeItems(d, content, depth, n - 1)
      case Err(error) => Err(error)
      case Ok(before) =>
        match DecodeAtDepth(d, content.items[n - 1], depth)
        case Err(error) => Err(error)
        case Ok(decoded) => Ok(before + [decoded])
  }

  function DecodeMembers(d: Doubles, content: Raw, depth: nat, n: nat): Outcome<seq<(string, Json)>>
    requires content.RawObject? && n <= |content.members|
    decreases content, 0, n
  {
    if n == 0 then Ok([])
    else match DecodeMembers(d, content, depth, n - 1)
      case Err(error) => Err(error)
      case Ok(before) =>
        match DecodeAtDepth(d, content.members[n - 1].1, depth)
        case Err(error) => Err(error)
        case Ok(decoded) => Ok(before + [(content.members[n - 1].0, decoded)])
  }

  function ValueNamed(members: seq<(string, Json)>, name: string): Option<Json> {
    if members == [] then None
    else if members[|members| - 1].0 == name then Some(members[|members| - 1].1)
    else ValueNamed(members[..|members| - 1], name)
  }

  predicate HasStringKey(members: seq<(string, Json)>) {
    var pk, sk := ValueNamed(members, "pk"), ValueNamed(members, "sk");
    pk.Some? && pk.value.Str? && sk.Some? && sk.value.Str?
  }

  // A whole item: its own map is no nesting level, and it needs string keys.
  function DecodeItem(d: Doubles, raw: Raw): Outcome<seq<(string, Json)>> {
    if !raw.RawObject? then Err(ShapeRefused)
    else match DecodeMembers(d, raw, 0, |raw.members|)
      case Err(error) => Err(error)
      case Ok(members) => if HasStringKey(members) then Ok(members) else Err(KeyRefused)
  }

  // ---------- the validator ----------

  datatype Violation = UnstorableNumber | NestsTooDeep

  function Violations(value: Json, depth: nat): seq<Violation>
    decreases value, 1, 0
  {
    match value
    case Num(n) => if UnencodableReason(n).Some? then [UnstorableNumber] else []
    case List(items) =>
      if depth >= MAX_NESTING_DEPTH then [NestsTooDeep] else ViolationsWithin(value, depth + 1, |items|)
    case Obj(members) =>
      if depth >= MAX_NESTING_DEPTH then [NestsTooDeep] else ViolationsWithin(value, depth + 1, |members|)
    case _ => []
  }

  // The nested values of a list or an object, in order.
  function Width(value: Json): nat {
    if value.List? then |value.items| else if value.Obj? then |value.members| else 0
  }

  function Nested(value: Json, i: nat): (r: Json)
    requires i < Width(value)
    ensures r < value
  {
    if value.List? then value.items[i] else value.members[i].1
  }

  function ViolationsWithin(value: Json, depth: nat, n: nat): seq<Violation>
    requires n <= Width(value)
    decreases value, 0, n
  {
    if n == 0 then [] else ViolationsWithin(value, depth, n - 1) + Violations(Nested(value, n - 1), depth)
  }
}

// The loops of the codec, which fill an accumulator and return at the first refusal.
module AttributeValueCodec {
  import opened Wrappers
  import opened StoredNumbers
  import opened AttributeValues

  method EncodeAttributeMap(d: Doubles, attributes: Json) returns (r: Outcome<seq<(string, Raw)>>)
    requires attributes.Obj?
    ensures r == EncodeMembers(d, attributes, |attributes.members|)
  {
    var encoded: seq<(string, Raw)> := [];
    for n := 0 to |attributes.members|
      invariant EncodeMembers(d, attributes, n) == Ok(encoded)
    {
      var (name, value) := attributes.members[n];
      var one := Encode(d, value);
      if one.Err? {
        MembersStopAt(d, attributes, n + 1, |attributes.members|);
        return Err(one.error);
      }
      encoded := encoded + [(name, one.value)];
    }
    return Ok(encoded);
  }

  lemma {:induction false} MembersStopAt(d: Doubles, value: Json, n: nat, m: nat)
    requires value.Obj? && n <= m <= |value.members| && EncodeMembers(d, value, n).Err?
    ensures EncodeMembers(d, value, m) == EncodeMembers(d, value, n)
    decreases m
  {
    hide Encode;
    if n < m {
      MembersStopAt(d, value, n, m - 1);
    }
  }

  method DecodeList(d: Doubles, content: Raw, memberDepth: nat) returns (r: Outcome<Json>)
    ensures r == if !content.RawArray? then Err(ShapeRefused)
                 else match DecodeItems(d, content, memberDepth, |content.items|)
                   case Err(error) => Err(error)
                   case Ok(items) => Ok(List(items))
  {
    if !content.RawArray? {
      return Err(ShapeRefused);
    }
    var values: seq<Json> := [];
    for n := 0 to |content.items|
      invariant DecodeItems(d, content, memberDepth, n) == Ok(values)
    {
      var decoded := DecodeAtDepth(d, content.items[n], memberDepth);
      if decoded.Err? {
        ItemsStopAt(d, content, memberDepth, n + 1, |content.items|);
        return Err(decoded.error);
      }
      values := values + [decoded.value];
    }
    return Ok(List(values));
  }

  lemma {:induction false} ItemsStopAt(d: Doubles, content: Raw, depth: nat, n: nat, m: nat)
    requires content.RawArray? && n <= m <= |content.items| && DecodeItems(d, content, depth, n).Err?
    ensures DecodeItems(d, content, depth, m) == DecodeItems(d, content, depth, n)
    decreases m
  {
    hide DecodeAtDepth;
    if n < m {
      ItemsStopAt(d, content, depth, n, m - 1);
    }
  }

  method DecodeMapMember(d: Doubles, content: Raw, memberDepth: nat) returns (r: Outcome<seq<(string, Json)>>)
    ensures r == if content.RawObject? then DecodeMembers(d, content, memberDepth, |content.members|)
                 else Err(ShapeRefused)
  {
    if !content.RawObject? {
      return Err(ShapeRefused);
    }
    var values: seq<(string, Json)> := [];
    for n := 0 to |content.members|
      invariant DecodeMembers(d, content, memberDepth, n) == Ok(values)
    {
      var (name, element) := content.members[n];
      var decoded := DecodeAtDepth(d, element, memberDepth);
      if decoded.Err? {
        DecodedMembersStopAt(d, content, memberDepth, n + 1, |content.members|);
        return Err(decoded.error);
      }
      values := values + [(name, decoded.value)];
    }
    return Ok(values);
  }

  lemma {:induction false} DecodedMembersStopAt(d: Doubles, content: Raw, depth: nat, n: nat, m: nat)
    requires content.RawObject? && n <= m <= |content.members| && DecodeMembers(d, content, depth, n).Err?
    ensures DecodeMembers(d, content, depth, m) == DecodeMembers(d, content, depth, n)
    decreases m
  {
    hide DecodeAtDepth;
    if n < m {
      DecodedMembersStopAt(d, content, depth, n, m - 1);
    }
  }
}

// How many bytes a value takes, estimated with a worklist instead of recursion.
module AttributeSizes {
  import opened Decimals
  import opened StoredNumbers
  import opened AttributeValues

  const SCALAR_FLAG_BYTES: nat := 1
  const CONTAINER_OVERHEAD_BYTES: nat := 3
  const ELEMENT_OVERHEAD_BYTES: nat := 1
  const MAX_ITEM_BYTES: nat := 400 * 1024

  function Utf8Length(c: char): nat {
    var code := c as int;
    if code < 0x80 then 1 else if code < 0x800 then 2 else if code < 0x10000 then 3 else 4
  }

  function Utf8Bytes(text: string): nat {
    if text == "" then 0 else Utf8Bytes(text[..|text| - 1]) + Utf8Length(text[|text| - 1])
  }

  function UpTo(text: string, stop: char): string {
    if text == "" || text[0] == stop then "" else [text[0]] + UpTo(text[1..], stop)
  }

  function WithoutFirst(text: string, c: char): string {
    if text == "" then "" else if text[0] == c then text[1..] else [text[0]] + WithoutFirst(text[1..], c)
  }

  function WithoutLeadingZeros(text: string): string {
    if text != "" && text[0] == '0' then WithoutLeadingZeros(text[1..]) else text
  }

  function WithoutTrailingZeros(text: string): string {
    if text != "" && text[|text| - 1] == '0' then WithoutTrailingZeros(text[..|text| - 1]) else text
  }

  // The digits of the mantissa between its outermost zeros, at least one.
  function SignificantDigits(text: string): nat {
    var digits := WithoutTrailingZeros(WithoutLeadingZeros(WithoutFirst(UpTo(text, 'e'), '.')));
    if digits == "" then 1 else |digits|
  }

  function Magnitude(n: Number): Number {
    if n.Integral? && n.value < 0 then Integral(0 - n.value) else n
  }

  // Fractions stand for their magnitude: their sign adds no digit.
  function OwnBytes(d: Doubles, value: Json): nat {
    match value
    case Str(s) => Utf8Bytes(s)
    case Num(n) => (SignificantDigits(NumberText(d, Magnitude(n))) + 1) / 2 + 1
    case Null => SCALAR_FLAG_BYTES
    case Bool(_) => SCALAR_FLAG_BYTES
    case _ => CONTAINER_OVERHEAD_BYTES
  }

  // Only the members of an object have a name.
  function NameOf(value: Json, i: nat): string
    requires i < Width(value)
  {
    if value.Obj? then value.members[i].0 else ""
  }

  // The recursive size: own bytes and, for each nested value, its name, the overhead and its size.
  ghost function Size(d: Doubles, value: Json): nat
    decreases value, 1, 0
  {
    OwnBytes(d, value) + SizeWithin(d, value, Width(value))
  }

  ghost function SizeWithin(d: Doubles, value: Json, n: nat): nat
    requires n <= Width(value)
    decreases value, 0, n
  {
    if n == 0 then 0
    else SizeWithin(d, value, n - 1) +
         (Utf8Bytes(NameOf(value, n - 1)) + ELEMENT_OVERHEAD_BYTES + Size(d, Nested(value, n - 1)))
  }

  ghost function NodeCount(value: Json): (n: nat)
    ensures n > 0
    decreases value, 1, 0
  {
    1 + NodesWithin(value, Width(value))
  }

  ghost function NodesWithin(value: Json, n: nat): nat
    requires n <= Width(value)
    decreases value, 0, n
  {
    if n == 0 then 0 else NodesWithin(value, n - 1) + NodeCount(Nested(value, n - 1))
  }

  ghost function SizeOfAll(d: Doubles, pending: seq<Json>): nat {
    if pending == [] then 0 else SizeOfAll(d, pending[..|pending| - 1]) + Size(d, pending[|pending| - 1])
  }

  ghost function NodesOfAll(pending: seq<Json>): nat {
    if pending == [] then 0 else NodesOfAll(pending[..|pending| - 1]) + NodeCount(pending[|pending| - 1])
  }

  lemma Pushed(d: Doubles, pending: seq<Json>, value: Json)
    ensures SizeOfAll(d, pending + [value]) == SizeOfAll(d, pending) + Size(d, value)
    ensures NodesOfAll(pending + [value]) == NodesOfAll(pending) + NodeCount(value)
  {
    assert (pending + [value])[..|pending|] == pending;
  }

  // The worklist ends and adds up to the recursive size, for a value of any depth and width.
  method EstimatedValueBytes(d: Doubles, value: Json) returns (total: nat)
    ensures total == Size(d, value)
  {
    hide Size, NodeCount, SizeOfAll, NodesOfAll;
    total := 0;
    var pending: seq<Json> := [value];
    OnlyOne(d, value);
    while pending != []
      invariant total + SizeOfAll(d, pending) == Size(d, value)
      decreases NodesOfAll(pending)
    {
      var next := pending[|pending| - 1];
      ghost var before := pending;
      pending := pending[..|pending| - 1];
      Popped(d, before);
      ghost var rest, begun := pending, total;
      total := total + OwnBytes(d, next);
      for n := 0 to Width(next)
        invariant total + SizeOfAll(d, pending)
            == begun + OwnBytes(d, next) + SizeOfAll(d, rest) + SizeWithin(d, next, n)
        invariant NodesOfAll(pending) == NodesOfAll(rest) + NodesWithin(next, n)
      {
        total := total + Utf8Bytes(NameOf(next, n)) + ELEMENT_OVERHEAD_BYTES;
        Pushed(d, pending, Nested(next, n));
        pending := pending + [Nested(next, n)];
      }
      InAll(d, next);
    }
    NoneLeft(d);
  }

  lemma InAll(d: Doubles, value: Json)
    ensures Size(d, value) == OwnBytes(d, value) + SizeWithin(d, value, Width(value))
    ensures NodeCount(value) == 1 + NodesWithin(value, Width(value))
  {
  }

  lemma OnlyOne(d: Doubles, value: Json)
    ensures SizeOfAll(d, [value]) == Size(d, value)
  {
  }

  lemma Popped(d: Doubles, pending: seq<Json>)
    requires pending != []
    ensures SizeOfAll(d, pending) == SizeOfAll(d, pending[..|pending| - 1]) + Size(d, pending[|pending| - 1])
    ensures NodesOfAll(pending) == NodesOfAll(pending[..|pending| - 1]) + NodeCount(pending[|pending| - 1])
  {
  }

  lemma NoneLeft(d: Doubles)
    ensures SizeOfAll(d, []) == 0
  {
  }

  // An item's size is its map's size without the overheads of the map and of its elements.
  ghost function ItemSize(d: Doubles, members: seq<(string, Json)>): nat {
    if members == [] then 0
    else
      var (name, value) := members[|members| - 1];
      ItemSize(d, members[..|members| - 1]) + Utf8Bytes(name) + Size(d, value)
  }

  method EstimatedItemBytes(d: Doubles, members: seq<(string, Json)>) returns (total: nat)
    ensures total == ItemSize(d, members)
    ensures total + |members| + CONTAINER_OVERHEAD_BYTES == Size(d, Obj(members))
  {
    hide Size;
    total := 0;
    for n := 0 to |members|
      invariant total == ItemSize(d, members[..n])
    {
      var bytes := EstimatedValueBytes(d, members[n].1);
      assert members[..n + 1][..n] == members[..n];
      total := total + Utf8Bytes(members[n].0) + bytes;
    }
    assert members[..|members|] == members;
    ItemWithin(d, Obj(members), |members|);
    InAll(d, Obj(members));
  }

  lemma {:induction false} ItemWithin(d: Doubles, item: Json, n: nat)
    requires item.Obj? && n <= |item.members|
    ensures ItemSize(d, item.members[..n]) + n == SizeWithin(d, item, n)
  {
    hide Size;
    if n > 0 {
      ItemWithin(d, item, n - 1);
      assert item.members[..n][..n - 1] == item.members[..n - 1];
    }
  }

  // An item is refused exactly when its size is over the limit.
  method ItemSizeViolation(d: Doubles, members: seq<(string, Json)>) returns (refused: bool)
    ensures refused <==> ItemSize(d, members) > MAX_ITEM_BYTES
  {
    var bytes := EstimatedItemBytes(d, members);
    return bytes > MAX_ITEM_BYTES;
  }

  // ---------- what the sizes come to ----------

  ghost predicate AreZeros(text: string) {
    forall i | 0 <= i < |text| :: text[i] == '0'
  }

  lemma {:induction false} UpToMark(text: string, tail: string, stop: char)
    requires stop !in text && (tail == "" || tail[0] == stop)
    ensures UpTo(text + tail, stop) == text
  {
    if text != "" {
      assert (text + tail)[1..] == text[1..] + tail;
      UpToMark(text[1..], tail, stop);
    }
  }

  lemma {:induction false} NoPoint(text: string)
    requires IsDigits(text)
    ensures WithoutFirst(text, '.') == text
  {
    if text != "" {
      NoPoint(text[1..]);
    }
  }

  lemma {:induction false} PointDropped(whole: string, point: string, fraction: string)
    requires IsDigits(whole) && IsDigits(fraction) && (point == "" || point == ".")
    ensures WithoutFirst(whole + point + fraction, '.') == whole + fraction
  {
    var text := whole + point + fraction;
    if whole != "" {
      assert text[1..] == whole[1..] + point + fraction;
      PointDropped(whole[1..], point, fraction);
    } else if point == "" {
      assert text == fraction;
      NoPoint(fraction);
    } else {
      assert text[1..] == fraction;
    }
  }

  lemma {:induction false} LeadingTrimmed(zeros: string, rest: string)
    requires AreZeros(zeros) && (rest == "" || rest[0] != '0')
    ensures WithoutLeadingZeros(zeros + rest) == rest
  {
    if zeros != "" {
      assert (zeros + rest)[1..] == zeros[1..] + rest;
      LeadingTrimmed(zeros[1..], rest);
    }
  }

  lemma {:induction false} TrailingTrimmed(rest: string, zeros: string)
    requires AreZeros(zeros) && (rest == "" || rest[|rest| - 1] != '0')
    ensures WithoutTrailingZeros(rest + zeros) == rest
  {
    if zeros != "" {
      assert (rest + zeros)[..|rest + zeros| - 1] == rest + zeros[..|zeros| - 1];
      TrailingTrimmed(rest, zeros[..|zeros| - 1]);
    }
  }

  // The digits that count are those between the outermost zeros, whatever the point and the exponent;
  // a zero counts one digit.
  lemma SignificantExactly(whole: string, point: string, fraction: string, exponent: string,
                           zeros: string, digits: string, more: string)
    requires IsDigits(whole) && IsDigits(fraction) && (point == "" || point == ".")
    requires exponent == "" || exponent[0] == 'e'
    requires whole + fraction == zeros + digits + more && AreZeros(zeros) && AreZeros(more)
    requires if digits == "" then more == "" else digits[0] != '0' && digits[|digits| - 1] != '0'
    ensures SignificantDigits(whole + point + fraction + exponent) == if digits == "" then 1 else |digits|
  {
    UpToMark(whole + point + fraction, exponent, 'e');
    PointDropped(whole, point, fraction);
    assert whole + fraction == zeros + (digits + more);
    LeadingTrimmed(zeros, digits + more);
    TrailingTrimmed(digits, more);
  }

  // A safe integer with `zeros` decimal zeros at its end counts the digits before them, its sign none.
  lemma IntegerBytes(d: Doubles, digits: nat, zeros: nat, negative: bool)
    requires digits % 10 != 0 && IsSafe(digits * Pow10(zeros))
    ensures var i := digits * Pow10(zeros);
      OwnBytes(d, Num(Integral(if negative then 0 - i else i))) == (|NatText(digits)| + 1) / 2 + 1
  {
    hide NatText, Pow10, SignificantDigits;
    var i := digits * Pow10(zeros);
    TextOfShifted(digits, zeros);
    var text := NatText(digits);
    LastDigit(digits);
    assert text + Zeros(zeros) == text + Zeros(zeros) + "" + "" + "";
    assert text + Zeros(zeros) == "" + text + Zeros(zeros);
    assert IsDigits(text + Zeros(zeros));
    SignificantExactly(text + Zeros(zeros), "", "", "", "", text, Zeros(zeros));
    assert i >= 0;
    assert NumberText(d, Integral(i)) == NatText(i);
    assert Magnitude(Integral(0 - i)) == Integral(i) && Magnitude(Integral(i)) == Integral(i);
  }

  lemma LastDigit(n: nat)
    requires n % 10 != 0
    ensures NatText(n)[0] != '0' && NatText(n)[|NatText(n)| - 1] != '0'
  {
  }

  lemma {:induction false} TextOfShifted(digits: nat, zeros: nat)
    requires digits > 0
    ensures digits * Pow10(zeros) > 0 && NatText(digits * Pow10(zeros)) == NatText(digits) + Zeros(zeros)
  {
    hide NatText;
    if zeros > 0 {
      TextOfShifted(digits, zeros - 1);
      var less := digits * Pow10(zeros - 1);
      TenTimes(digits, Pow10(zeros - 1));
      ShiftedByOne(less);
      assert NatText(less) + "0" == NatText(digits) + (Zeros(zeros - 1) + "0");
    } else {
      assert NatText(digits) + "" == NatText(digits);
    }
  }

  lemma TenTimes(a: nat, b: nat)
    ensures a * (10 * b) == 10 * (a * b)
  {
  }

  lemma ShiftedByOne(n: nat)
    requires n > 0
    ensures NatText(10 * n) == NatText(n) + "0"
  {
    assert (10 * n) / 10 == n && (10 * n) % 10 == 0;
  }

  // The lengths of the characters at the ends of the four ranges, and the sizes the source documents.
  lemma DocumentedSizes(d: Doubles)
    ensures Utf8Length('\U{7F}') == 1 && Utf8Length('\U{80}') == 2 && Utf8Length('\U{7FF}') == 2
    ensures Utf8Length('\U{800}') == 3 && Utf8Length('\U{FFFF}') == 3 && Utf8Length('\U{10000}') == 4
    ensures Size(d, List([Str("ab"), Bool(true)])) == 8
    ensures ItemSize(d, [("pk", Str("p")), ("sk", Str("s")), ("n", Num(Integral(10000)))]) == 9
    ensures OwnBytes(d, Null) == OwnBytes(d, Bool(true)) == OwnBytes(d, Bool(false)) == 1
    ensures OwnBytes(d, List([])) == OwnBytes(d, Obj([])) == 3 && OwnBytes(d, Num(Integral(0))) == 2
    ensures MAX_ITEM_BYTES == 409600
  {
    hide ItemSize, SignificantDigits, Size;
    ShortTexts();
    DocumentedList(d);
    DocumentedItem(d);
    assert "0" + "" + "" + "" == "0";
    SignificantExactly("0", "", "", "", "0", "", "");
  }

  lemma ShortTexts()
    ensures Utf8Bytes("p") == 1 && Utf8Bytes("s") == 1 && Utf8Bytes("n") == 1
    ensures Utf8Bytes("pk") == 2 && Utf8Bytes("sk") == 2 && Utf8Bytes("ab") == 2 && Utf8Bytes("") == 0
  {
    assert "pk"[..1] == "p" && "sk"[..1] == "s" && "ab"[..1] == "a";
  }

  lemma DocumentedList(d: Doubles)
    ensures Size(d, List([Str("ab"), Bool(true)])) == 8
  {
    ShortTexts();
    var value := List([Str("ab"), Bool(true)]);
    assert Nested(value, 0) == Str("ab") && Nested(value, 1) == Bool(true);
    assert SizeWithin(d, value, 1) == 3;
  }

  lemma DocumentedItem(d: Doubles)
    ensures ItemSize(d, [("pk", Str("p")), ("sk", Str("s")), ("n", Num(Integral(10000)))]) == 9
  {
    hide ItemSize, OwnBytes, Size, Utf8Bytes, NatText;
    ShortTexts();
    InAll(d, Str("p"));
    InAll(d, Str("s"));
    OwnTextBytes(d, "p");
    OwnTextBytes(d, "s");
    InAll(d, Num(Integral(10000)));
    assert Pow10(4) == 10000;
    IntegerBytes(d, 1, 4, false);
    OneDigit();
    var first, second, third := ("pk", Str("p")), ("sk", Str("s")), ("n", Num(Integral(10000)));
    ItemGrows(d, [], "pk", Str("p"));
    ItemGrows(d, [first], "sk", Str("s"));
    ItemGrows(d, [first, second], "n", Num(Integral(10000)));
    assert [] + [first] == [first] && [first] + [second] == [first, second];
    assert [first, second] + [third] == [first, second, third];
  }

  lemma OwnTextBytes(d: Doubles, text: string)
    ensures OwnBytes(d, Str(text)) == Utf8Bytes(text)
  {
  }

  lemma OneDigit()
    ensures |NatText(1)| == 1
  {
  }

  lemma ItemGrows(d: Doubles, members: seq<(string, Json)>, name: string, value: Json)
    ensures ItemSize(d, []) == 0
    ensures ItemSize(d, members + [(name, value)]) == ItemSize(d, members) + Utf8Bytes(name) + Size(d, value)
  {
    assert (members + [(name, value)])[..|members|] == members;
  }
}
