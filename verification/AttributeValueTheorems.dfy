// The codec and the validator agree, at every depth and for every value.
module AttributeValueTheorems {
  import opened Wrappers
  import opened StoredNumbers
  import opened AttributeValues

  // ---------- a value without a violation comes back ----------

  lemma {:induction false} StorableComesBack(d: Doubles, value: Json, depth: nat)
    requires ReadsBack(d) && Violations(value, depth) == []
    ensures Encode(d, value).Ok? && DecodeAtDepth(d, Encode(d, value).value, depth) == Ok(value)
    decreases value, 1, 0
  {
    hide ReadsBack, IsNumberText, ReadNumber, NumberText;
    match value {
      case Num(n) =>
        EncodableIsReadBack(d, n);
      case List(items) =>
        StorableItemsComeBack(d, value, depth + 1, |items|);
        var encoded := EncodeItems(d, value, |items|).value;
        assert RawArray(encoded).items[..|items|] == encoded && items[..|items|] == items;
      case Obj(members) =>
        StorableMembersComeBack(d, value, depth + 1, |members|);
        var encoded := EncodeMembers(d, value, |members|).value;
        assert RawObject(encoded).members[..|members|] == encoded && members[..|members|] == members;
      case _ =>
    }
  }

  ghost predicate StartsItems(content: Raw, encoded: seq<Raw>) {
    content.RawArray? && encoded <= content.items
  }

  ghost predicate StartsMembers(content: Raw, encoded: seq<(string, Raw)>) {
    content.RawObject? && encoded <= content.members
  }

  lemma {:induction false} StorableItemsComeBack(d: Doubles, value: Json, depth: nat, n: nat)
    requires ReadsBack(d) && value.List? && n <= |value.items| && ViolationsWithin(value, depth, n) == []
    ensures EncodeItems(d, value, n).Ok? && |EncodeItems(d, value, n).value| == n
    ensures forall content | StartsItems(content, EncodeItems(d, value, n).value) ::
              DecodeItems(d, content, depth, n) == Ok(value.items[..n])
    decreases value, 0, n
  {
    hide ReadsBack, Violations, Encode, DecodeAtDepth;
    if n > 0 {
      var m := n - 1;
      assert ViolationsWithin(value, depth, n) == ViolationsWithin(value, depth, m) + Violations(value.items[m], depth);
      StorableItemsComeBack(d, value, depth, m);
      StorableComesBack(d, value.items[m], depth);
      assert value.items[..n] == value.items[..m] + [value.items[m]];
      var before, encoded := EncodeItems(d, value, m).value, EncodeItems(d, value, n).value;
      forall content | StartsItems(content, encoded)
        ensures DecodeItems(d, content, depth, n) == Ok(value.items[..n])
      {
        assert StartsItems(content, before) && content.items[m] == encoded[m];
      }
    }
  }

  lemma {:induction false} StorableMembersComeBack(d: Doubles, value: Json, depth: nat, n: nat)
    requires ReadsBack(d) && value.Obj? && n <= |value.members| && ViolationsWithin(value, depth, n) == []
    ensures EncodeMembers(d, value, n).Ok? && |EncodeMembers(d, value, n).value| == n
    ensures forall content | StartsMembers(content, EncodeMembers(d, value, n).value) ::
              DecodeMembers(d, content, depth, n) == Ok(value.members[..n])
    decreases value, 0, n
  {
    hide ReadsBack, Violations, Encode, DecodeAtDepth;
    if n > 0 {
      var m := n - 1;
      assert ViolationsWithin(value, depth, n)
          == ViolationsWithin(value, depth, m) + Violations(value.members[m].1, depth);
      StorableMembersComeBack(d, value, depth, m);
      StorableComesBack(d, value.members[m].1, depth);
      assert value.members[..n] == value.members[..m] + [value.members[m]];
      var before, encoded := EncodeMembers(d, value, m).value, EncodeMembers(d, value, n).value;
      forall content | StartsMembers(content, encoded)
        ensures DecodeMembers(d, content, depth, n) == Ok(value.members[..n])
      {
        assert StartsMembers(content, before) && content.members[m] == encoded[m];
      }
    }
  }

  // ---------- what comes back is what was encoded ----------

  lemma {:induction false} ComesBackUnchanged(d: Doubles, value: Json, depth: nat)
    requires ReadsBack(d) && Encode(d, value).Ok? && DecodeAtDepth(d, Encode(d, value).value, depth).Ok?
    ensures DecodeAtDepth(d, Encode(d, value).value, depth) == Ok(value)
    decreases value, 1, 0
  {
    hide ReadsBack, IsNumberText, ReadNumber, NumberText;
    match value {
      case Num(n) =>
        EncodableIsReadBack(d, n);
      case List(items) =>
        var encoded := EncodeItems(d, value, |items|).value;
        ItemsComeBackUnchanged(d, value, RawArray(encoded), depth + 1, |items|);
        assert items[..|items|] == items;
      case Obj(members) =>
        var encoded := EncodeMembers(d, value, |members|).value;
        MembersComeBackUnchanged(d, value, RawObject(encoded), depth + 1, |members|);
        assert members[..|members|] == members;
      case _ =>
    }
  }

  lemma {:induction false} ItemsComeBackUnchanged(d: Doubles, value: Json, content: Raw, depth: nat, n: nat)
    requires ReadsBack(d) && value.List? && n <= |value.items| && EncodeItems(d, value, n).Ok?
    requires StartsItems(content, EncodeItems(d, value, n).value)
    ensures |EncodeItems(d, value, n).value| == n
    ensures DecodeItems(d, content, depth, n).Ok? ==> DecodeItems(d, content, depth, n) == Ok(value.items[..n])
    decreases value, 0, n
  {
    hide ReadsBack, Encode, DecodeAtDepth;
    if n > 0 {
      var m := n - 1;
      var before, encoded := EncodeItems(d, value, m).value, EncodeItems(d, value, n).value;
      assert StartsItems(content, before);
      ItemsComeBackUnchanged(d, value, content, depth, m);
      assert content.items[m] == encoded[m] && value.items[..n] == value.items[..m] + [value.items[m]];
      if DecodeAtDepth(d, encoded[m], depth).Ok? {
        ComesBackUnchanged(d, value.items[m], depth);
      }
    }
  }

  lemma {:induction false} MembersComeBackUnchanged(d: Doubles, value: Json, content: Raw, depth: nat, n: nat)
    requires ReadsBack(d) && value.Obj? && n <= |value.members| && EncodeMembers(d, value, n).Ok?
    requires StartsMembers(content, EncodeMembers(d, value, n).value)
    ensures |EncodeMembers(d, value, n).value| == n
    ensures DecodeMembers(d, content, depth, n).Ok? ==> DecodeMembers(d, content, depth, n) == Ok(value.members[..n])
    decreases value, 0, n
  {
    hide ReadsBack, Encode, DecodeAtDepth;
    if n > 0 {
      var m := n - 1;
      var before, encoded := EncodeMembers(d, value, m).value, EncodeMembers(d, value, n).value;
      assert StartsMembers(content, before);
      MembersComeBackUnchanged(d, value, content, depth, m);
      assert content.members[m] == encoded[m] && value.members[..n] == value.members[..m] + [value.members[m]];
      if DecodeAtDepth(d, encoded[m].1, depth).Ok? {
        ComesBackUnchanged(d, value.members[m].1, depth);
      }
    }
  }

  // ---------- whatever is decoded is storable ----------

  lemma {:induction false} DecodedIsStorable(d: Doubles, raw: Raw, depth: nat)
    requires DecodeAtDepth(d, raw, depth).Ok?
    ensures Violations(DecodeAtDepth(d, raw, depth).value, depth) == []
    decreases raw, 1, 0
  {
    hide IsNumberText, ReadNumber;
    var (member, content) := raw.members[0];
    var value := DecodeAtDepth(d, raw, depth).value;
    if member == "L" {
      DecodedItemsAreStorable(d, content, depth + 1, |content.items|, value);
    } else if member == "M" {
      DecodedMembersAreStorable(d, content, depth + 1, |content.members|, value);
    }
  }

  lemma {:induction false} DecodedItemsAreStorable(d: Doubles, content: Raw, depth: nat, n: nat, value: Json)
    requires content.RawArray? && n <= |content.items| && DecodeItems(d, content, depth, n).Ok?
    requires value.List? && DecodeItems(d, content, depth, n).value <= value.items
    ensures |DecodeItems(d, content, depth, n).value| == n && ViolationsWithin(value, depth, n) == []
    decreases content, 0, n
  {
    hide DecodeAtDepth, Violations;
    if n > 0 {
      var m := n - 1;
      DecodedItemsAreStorable(d, content, depth, m, value);
      DecodedIsStorable(d, content.items[m], depth);
      assert value.items[m] == DecodeItems(d, content, depth, n).value[m];
    }
  }

  lemma {:induction false} DecodedMembersAreStorable(d: Doubles, content: Raw, depth: nat, n: nat, value: Json)
    requires content.RawObject? && n <= |content.members| && DecodeMembers(d, content, depth, n).Ok?
    requires value.Obj? && DecodeMembers(d, content, depth, n).value <= value.members
    ensures |DecodeMembers(d, content, depth, n).value| == n && ViolationsWithin(value, depth, n) == []
    decreases content, 0, n
  {
    hide DecodeAtDepth, Violations;
    if n > 0 {
      var m := n - 1;
      DecodedMembersAreStorable(d, content, depth, m, value);
      DecodedIsStorable(d, content.members[m].1, depth);
      assert value.members[m] == DecodeMembers(d, content, depth, n).value[m];
    }
  }

  // ---------- the agreement ----------

  // The validator passes a value exactly when it encodes and its encoding decodes, and then it decodes
  // to the same value: at every depth, for every value.
  lemma ValidatorAgreesWithCodec(d: Doubles, value: Json, depth: nat)
    requires ReadsBack(d)
    ensures Violations(value, depth) == [] <==>
              Encode(d, value).Ok? && DecodeAtDepth(d, Encode(d, value).value, depth).Ok?
    ensures Violations(value, depth) == [] ==> DecodeAtDepth(d, Encode(d, value).value, depth) == Ok(value)
  {
    hide Encode, DecodeAtDepth, Violations, ReadsBack;
    if Violations(value, depth) == [] {
      StorableComesBack(d, value, depth);
    }
    if Encode(d, value).Ok? && DecodeAtDepth(d, Encode(d, value).value, depth).Ok? {
      ComesBackUnchanged(d, value, depth);
      DecodedIsStorable(d, Encode(d, value).value, depth);
    }
  }

  // Whatever the decoder accepts, from any data at all, is written and read back unchanged.
  lemma DecodedIsStable(d: Doubles, raw: Raw, depth: nat)
    requires ReadsBack(d) && DecodeAtDepth(d, raw, depth).Ok?
    ensures var value := DecodeAtDepth(d, raw, depth).value;
      Encode(d, value).Ok? && DecodeAtDepth(d, Encode(d, value).value, depth) == Ok(value)
  {
    hide Encode, DecodeAtDepth, Violations, ReadsBack;
    DecodedIsStorable(d, raw, depth);
    StorableComesBack(d, DecodeAtDepth(d, raw, depth).value, depth);
  }

  // An item is read back from its encoded attributes exactly when every attribute passes the validator
  // at depth 0 and the key is two strings.
  lemma ItemComesBackExactly(d: Doubles, members: seq<(string, Json)>)
    requires ReadsBack(d)
    ensures var item := Obj(members);
      (ViolationsWithin(item, 0, |members|) == [] && HasStringKey(members)) <==>
        (EncodeMembers(d, item, |members|).Ok? &&
         DecodeItem(d, RawObject(EncodeMembers(d, item, |members|).value)) == Ok(members))
  {
    hide Encode, DecodeAtDepth, Violations, ReadsBack, HasStringKey, ViolationsWithin, EncodeMembers, DecodeMembers;
    var item, n := Obj(members), |members|;
    assert members[..n] == members;
    if ViolationsWithin(item, 0, n) == [] {
      StorableMembersComeBack(d, item, 0, n);
      assert StartsMembers(RawObject(EncodeMembers(d, item, n).value), EncodeMembers(d, item, n).value);
    }
    if EncodeMembers(d, item, n).Ok? && DecodeItem(d, RawObject(EncodeMembers(d, item, n).value)) == Ok(members) {
      var content := RawObject(EncodeMembers(d, item, n).value);
      MembersComeBackUnchanged(d, item, content, 0, n);
      DecodedMembersAreStorable(d, content, 0, n, item);
    }
  }

  // ---------- how deep is too deep ----------

  // The levels of lists and maps inside a value.
  function Levels(value: Json): nat
    decreases value, 1, 0
  {
    if value.List? || value.Obj? then 1 + LevelsWithin(value, Width(value)) else 0
  }

  function LevelsWithin(value: Json, n: nat): nat
    requires n <= Width(value)
    decreases value, 0, n
  {
    if n == 0 then 0
    else
      var before, last := LevelsWithin(value, n - 1), Levels(Nested(value, n - 1));
      if before < last then last else before
  }

  predicate NumbersStorable(value: Json)
    decreases value, 1, 0
  {
    (value.Num? ==> UnencodableReason(value.n).None?) && NumbersStorableWithin(value, Width(value))
  }

  predicate NumbersStorableWithin(value: Json, n: nat)
    requires n <= Width(value)
    decreases value, 0, n
  {
    n == 0 || (NumbersStorableWithin(value, n - 1) && NumbersStorable(Nested(value, n - 1)))
  }

  ghost predicate Fits(levels: nat, depth: nat) {
    levels == 0 || depth + levels <= 32
  }

  // A value enclosed by `depth` lists and maps passes exactly when all its numbers are storable and its
  // own levels fit into what is left of the 32.
  lemma {:induction false} StorableExactly(value: Json, depth: nat)
    ensures Violations(value, depth) == [] <==> NumbersStorable(value) && Fits(Levels(value), depth)
    decreases value, 1, 0
  {
    if value.List? || value.Obj? {
      if depth < MAX_NESTING_DEPTH {
        StorableWithinExactly(value, depth + 1, Width(value));
      }
    }
  }

  lemma {:induction false} StorableWithinExactly(value: Json, depth: nat, n: nat)
    requires n <= Width(value)
    ensures ViolationsWithin(value, depth, n) == [] <==>
              NumbersStorableWithin(value, n) && Fits(LevelsWithin(value, n), depth)
    decreases value, 0, n
  {
    hide Violations, NumbersStorable, Levels;
    if n > 0 {
      StorableWithinExactly(value, depth, n - 1);
      StorableExactly(Nested(value, n - 1), depth);
      assert |ViolationsWithin(value, depth, n)| ==
             |ViolationsWithin(value, depth, n - 1)| + |Violations(Nested(value, n - 1), depth)|;
    }
  }
}
