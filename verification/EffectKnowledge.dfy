// What attempts tell about the monetary effects of a request: study-1/src/attempt-lifecycle
// dispatch-classification.ts, outcome-classification.ts and effect-knowledge.ts.
module EffectKnowledge {
  import opened Wrappers
  import opened Folds

  datatype Dispatch = DISPATCHED | NOT_DISPATCHED | UNKNOWN_DISPATCH
  datatype Outcome = SUCCEEDED | REJECTED | TIMED_OUT | FAILED
  datatype OutcomeClass = PRE_DISPATCH_FAILURE | REJECTION | SUCCESS | AMBIGUOUS
  datatype Knowledge =
    NOT_ATTEMPTED | NO_EFFECT_CONFIRMED | ONE_EFFECT_CONFIRMED | MULTIPLE_EFFECTS_CONFIRMED | UNKNOWN

  // Present, proven absent, or not to be told.
  datatype Seen = Yes | No | CannotTell
  datatype Evidence = Evidence(preDispatchRegistered: Seen, notDispatchedRecorded: Seen, dispatchStarted: Seen)

  function ClassifyDispatch(e: Evidence): Dispatch {
    if e.dispatchStarted == Yes then DISPATCHED
    else if e.notDispatchedRecorded == Yes && e.preDispatchRegistered != No then NOT_DISPATCHED
    else UNKNOWN_DISPATCH
  }

  // A contradiction between outcome and dispatch is an error, never a class.
  function ClassifyOutcome(outcome: Outcome, dispatch: Dispatch): Option<OutcomeClass> {
    if outcome == FAILED then Some(if dispatch == NOT_DISPATCHED then PRE_DISPATCH_FAILURE else AMBIGUOUS)
    else if dispatch == NOT_DISPATCHED then None
    else Some(match outcome case SUCCEEDED => SUCCESS case REJECTED => REJECTION case _ => AMBIGUOUS)
  }

  function Next(from: Knowledge, cls: OutcomeClass): Knowledge {
    match (from, cls)
    case (UNKNOWN, _) => UNKNOWN
    case (_, AMBIGUOUS) => UNKNOWN
    case (NOT_ATTEMPTED, PRE_DISPATCH_FAILURE) => NOT_ATTEMPTED
    case (NOT_ATTEMPTED, REJECTION) => NO_EFFECT_CONFIRMED
    case (NOT_ATTEMPTED, SUCCESS) => ONE_EFFECT_CONFIRMED
    case (NO_EFFECT_CONFIRMED, SUCCESS) => ONE_EFFECT_CONFIRMED
    case (NO_EFFECT_CONFIRMED, _) => NO_EFFECT_CONFIRMED
    case (ONE_EFFECT_CONFIRMED, SUCCESS) => MULTIPLE_EFFECTS_CONFIRMED
    case (ONE_EFFECT_CONFIRMED, _) => ONE_EFFECT_CONFIRMED
    case (MULTIPLE_EFFECTS_CONFIRMED, _) => MULTIPLE_EFFECTS_CONFIRMED
  }

  function Fold(classes: seq<OutcomeClass>): Knowledge {
    if classes == [] then NOT_ATTEMPTED else Next(Fold(classes[..|classes| - 1]), classes[|classes| - 1])
  }

  // ---------- against the effects that really happened ----------

  // How many effects an attempt of this class may have had: a success exactly one, an ambiguous
  // attempt none or one, any other none.
  predicate MayHave(cls: OutcomeClass, effects: nat) {
    match cls
    case SUCCESS => effects == 1
    case AMBIGUOUS => effects <= 1
    case _ => effects == 0
  }

  predicate PossibleEffects(classes: seq<OutcomeClass>, effects: seq<nat>) {
    |effects| == |classes| && forall i | 0 <= i < |classes| :: MayHave(classes[i], effects[i])
  }

  predicate Tells(k: Knowledge, count: int) {
    match k
    case NOT_ATTEMPTED => count == 0
    case NO_EFFECT_CONFIRMED => count == 0
    case ONE_EFFECT_CONFIRMED => count == 1
    case MULTIPLE_EFFECTS_CONFIRMED => count >= 2
    case UNKNOWN => true
  }

  // Unless it is UNKNOWN the fold tells the true number of effects, and it is UNKNOWN exactly when
  // some attempt was ambiguous.
  lemma {:induction false} FoldTellsTheTruth(classes: seq<OutcomeClass>, effects: seq<nat>)
    requires PossibleEffects(classes, effects)
    ensures Tells(Fold(classes), SumBy((n: nat) => n, effects))
    ensures Fold(classes) == UNKNOWN <==> AMBIGUOUS in classes
    decreases |classes|
  {
    if classes != [] {
      var n := |classes| - 1;
      FoldTellsTheTruth(classes[..n], effects[..n]);
      assert classes == classes[..n] + [classes[n]];
    }
  }

  // UNKNOWN is not given away: whenever the fold says it, both more and fewer effects are possible.
  lemma UnknownMeansUndetermined(classes: seq<OutcomeClass>)
    requires Fold(classes) == UNKNOWN
    ensures exists fewer, more :: PossibleEffects(classes, fewer) && PossibleEffects(classes, more)
                                  && SumBy((n: nat) => n, fewer) < SumBy((n: nat) => n, more)
  {
    var least := Effects(classes, 0);
    FoldTellsTheTruth(classes, least);
    var k :| 0 <= k < |classes| && classes[k] == AMBIGUOUS;
    var more := least[k := 1];
    var f := (n: nat) => n;
    SumByWithout(f, least, k);
    SumByWithout(f, more, k);
    assert least[..k] + least[k + 1..] == more[..k] + more[k + 1..];
    assert PossibleEffects(classes, least) && PossibleEffects(classes, more);
  }

  function Effects(classes: seq<OutcomeClass>, ambiguous: nat): (effects: seq<nat>)
    requires ambiguous <= 1
    ensures PossibleEffects(classes, effects)
    ensures forall i | 0 <= i < |classes| :: classes[i] == AMBIGUOUS ==> effects[i] == ambiguous
  {
    seq(|classes|, i requires 0 <= i < |classes| =>
      match classes[i] case SUCCESS => 1 case AMBIGUOUS => ambiguous case _ => 0)
  }

  // ---------- order ----------

  function Successes(classes: seq<OutcomeClass>): int {
    SumBy((c: OutcomeClass) => if c == SUCCESS then 1 else 0, classes)
  }

  // The fold by what was seen, without an order.
  function Summary(ambiguous: bool, rejected: bool, successes: int): Knowledge {
    if ambiguous then UNKNOWN
    else if successes >= 2 then MULTIPLE_EFFECTS_CONFIRMED
    else if successes == 1 then ONE_EFFECT_CONFIRMED
    else if rejected then NO_EFFECT_CONFIRMED
    else NOT_ATTEMPTED
  }

  lemma {:induction false} FoldIsSummary(classes: seq<OutcomeClass>)
    ensures Successes(classes) >= 0
    ensures Fold(classes) == Summary(AMBIGUOUS in classes, REJECTION in classes, Successes(classes))
  {
    if classes != [] {
      FoldIsSummary(classes[..|classes| - 1]);
      assert classes == classes[..|classes| - 1] + [classes[|classes| - 1]];
    }
  }

  lemma FoldInAnyOrder(classes: seq<OutcomeClass>, others: seq<OutcomeClass>)
    requires multiset(classes) == multiset(others)
    ensures Fold(classes) == Fold(others)
  {
    FoldIsSummary(classes);
    FoldIsSummary(others);
    SumByAnyOrder((c: OutcomeClass) => if c == SUCCESS then 1 else 0, classes, others);
    assert AMBIGUOUS in multiset(classes) <==> AMBIGUOUS in multiset(others);
    assert REJECTION in multiset(classes) <==> REJECTION in multiset(others);
  }

  // ---------- losing evidence ----------

  datatype Attempt = Attempt(outcome: Outcome, evidence: Evidence)

  function ClassOf(a: Attempt): Option<OutcomeClass> {
    ClassifyOutcome(a.outcome, ClassifyDispatch(a.evidence))
  }

  predicate SeenLess(less: Seen, more: Seen) {
    less == more || less == CannotTell
  }

  // The same attempts with some evidence turned into "cannot tell".
  predicate Weaker(less: Attempt, more: Attempt) {
    && less.outcome == more.outcome
    && SeenLess(less.evidence.preDispatchRegistered, more.evidence.preDispatchRegistered)
    && SeenLess(less.evidence.notDispatchedRecorded, more.evidence.notDispatchedRecorded)
    && SeenLess(less.evidence.dispatchStarted, more.evidence.dispatchStarted)
  }

  // Evidence the conditional transitions allow: an attempt goes from registered to one of the two
  // dispatch states, never to both.
  predicate Consistent(e: Evidence) {
    && !(e.dispatchStarted == Yes && e.notDispatchedRecorded == Yes)
    && (e.notDispatchedRecorded == Yes ==> e.preDispatchRegistered != No)
  }

  function ClassesOf(attempts: seq<Attempt>): Option<seq<OutcomeClass>> {
    if attempts == [] then Some([])
    else
      var before, last := ClassesOf(attempts[..|attempts| - 1]), ClassOf(attempts[|attempts| - 1]);
      if before.None? || last.None? then None else Some(before.value + [last.value])
  }

  lemma WeakerClass(less: Attempt, more: Attempt)
    requires Weaker(less, more) && Consistent(more.evidence) && ClassOf(more).Some?
    ensures ClassOf(less).Some?
    ensures ClassOf(less) == ClassOf(more) || ClassOf(less).value == AMBIGUOUS
  {
  }

  // Consistency is what that takes: evidence that is not consistent can lose a record and then be
  // classified as something else than before, and not as ambiguous.
  lemma InconsistentEvidenceMisleads(more: Attempt)
    requires !Consistent(more.evidence) && ClassOf(more).Some?
    ensures exists less :: Weaker(less, more) && ClassOf(less) != ClassOf(more) && ClassOf(less) != Some(AMBIGUOUS)
  {
    var less := more.(evidence := Evidence(CannotTell, more.evidence.notDispatchedRecorded, CannotTell));
    assert Weaker(less, more) && ClassifyDispatch(less.evidence) == NOT_DISPATCHED;
  }

  // The attempts with less evidence, where the evidence was consistent.
  predicate AllWeaker(less: seq<Attempt>, more: seq<Attempt>) {
    && |less| == |more|
    && forall i | 0 <= i < |more| :: Weaker(less[i], more[i]) && Consistent(more[i].evidence)
  }

  lemma WeakerBefore(less: seq<Attempt>, more: seq<Attempt>)
    requires AllWeaker(less, more) && less != []
    ensures |less| == |more| && AllWeaker(less[..|less| - 1], more[..|less| - 1])
    ensures Weaker(less[|less| - 1], more[|less| - 1]) && Consistent(more[|less| - 1].evidence)
  {
    hide Weaker, Consistent;
  }

  // Losing consistent evidence never changes what is known except to UNKNOWN.
  lemma {:induction false} LosingEvidenceOnlyLosesKnowledge(less: seq<Attempt>, more: seq<Attempt>)
    requires AllWeaker(less, more) && ClassesOf(more).Some?
    ensures ClassesOf(less).Some?
    ensures var k := Fold(ClassesOf(less).value); k == Fold(ClassesOf(more).value) || k == UNKNOWN
    decreases |less|
  {
    if less != [] {
      hide Fold, AllWeaker, ClassOf, Next;
      var n := |less| - 1;
      WeakerBefore(less, more);
      LosingEvidenceOnlyLosesKnowledge(less[..n], more[..n]);
      WeakerClass(less[n], more[n]);
      FoldOneMore(ClassesOf(less[..n]).value, ClassOf(less[n]).value);
      FoldOneMore(ClassesOf(more[..n]).value, ClassOf(more[n]).value);
      LessStaysLess(Fold(ClassesOf(less[..n]).value), Fold(ClassesOf(more[..n]).value),
                    ClassOf(less[n]).value, ClassOf(more[n]).value);
    }
  }

  lemma LessStaysLess(k: Knowledge, k': Knowledge, cls: OutcomeClass, cls': OutcomeClass)
    requires (k == k' || k == UNKNOWN) && (cls == cls' || cls == AMBIGUOUS)
    ensures Next(k, cls) == Next(k', cls') || Next(k, cls) == UNKNOWN
  {
  }

  lemma FoldOneMore(before: seq<OutcomeClass>, last: OutcomeClass)
    ensures Fold(before + [last]) == Next(Fold(before), last)
  {
    assert (before + [last])[..|before|] == before;
  }

  // ---------- what an attempt's record leaves possible ----------

  // What really happened to an attempt: whether it was dispatched, and how many effects it had.
  datatype Truth = Truth(dispatched: bool, effects: nat)

  // An attempt has at most one effect and none without dispatch; every outcome but FAILED implies
  // dispatch, a success exactly one effect and a rejection none; a recorded start proves dispatch and a
  // recorded conditional transition disproves it. Absence of a record proves nothing.
  predicate IsPossible(a: Attempt, truth: Truth) {
    && truth.effects <= 1 && (!truth.dispatched ==> truth.effects == 0)
    && (a.outcome != FAILED ==> truth.dispatched)
    && (a.outcome == SUCCEEDED ==> truth.effects == 1) && (a.outcome == REJECTED ==> truth.effects == 0)
    && (a.evidence.dispatchStarted == Yes ==> truth.dispatched)
    && (a.evidence.notDispatchedRecorded == Yes ==> !truth.dispatched)
  }

  predicate MayBe(a: Attempt, dispatched: bool, effects: nat) {
    IsPossible(a, Truth(dispatched, effects))
  }

  // The class is exactly what the record leaves possible: a contradiction when nothing is, ambiguous when
  // both an effect and none are, a success when only an effect is, and otherwise a rejection or a failure
  // before dispatch as the attempt was dispatched or not.
  lemma ClassIsWhatIsPossible(a: Attempt)
    requires Consistent(a.evidence)
    ensures var dispatched, none, unsent := MayBe(a, true, 1), MayBe(a, true, 0), MayBe(a, false, 0);
      && (ClassOf(a) == None <==> !dispatched && !none && !unsent)
      && (ClassOf(a) == Some(AMBIGUOUS) <==> dispatched && (none || unsent))
      && (ClassOf(a) == Some(SUCCESS) <==> dispatched && !none && !unsent)
      && (ClassOf(a) == Some(REJECTION) <==> !dispatched && none)
      && (ClassOf(a) == Some(PRE_DISPATCH_FAILURE) <==> !dispatched && !none && unsent)
    ensures forall truth | IsPossible(a, truth) :: ClassOf(a).Some? && MayHave(ClassOf(a).value, truth.effects)
  {
  }

  ghost predicate AllPossible(attempts: seq<Attempt>, truths: seq<Truth>) {
    |attempts| == |truths| && forall i | 0 <= i < |attempts| ::
      Consistent(attempts[i].evidence) && IsPossible(attempts[i], truths[i])
  }

  function EffectsOf(truths: seq<Truth>): seq<nat> {
    seq(|truths|, i requires 0 <= i < |truths| => truths[i].effects)
  }

  // Over every sequence of attempts, whatever really happened: the records have classes, and the fold of
  // the classes tells the true number of effects unless it says UNKNOWN.
  lemma {:induction false} RecordsTellTheTruth(attempts: seq<Attempt>, truths: seq<Truth>)
    requires AllPossible(attempts, truths)
    ensures ClassesOf(attempts).Some? && PossibleEffects(ClassesOf(attempts).value, EffectsOf(truths))
    ensures Tells(Fold(ClassesOf(attempts).value), SumBy((n: nat) => n, EffectsOf(truths)))
    decreases |attempts|
  {
    hide ClassOf, IsPossible, Consistent, MayHave, Fold, SumBy;
    if attempts != [] {
      var n := |attempts| - 1;
      assert AllPossible(attempts[..n], truths[..n]);
      RecordsTellTheTruth(attempts[..n], truths[..n]);
      ClassIsWhatIsPossible(attempts[n]);
      assert EffectsOf(truths) == EffectsOf(truths[..n]) + [truths[n].effects];
    }
    FoldTellsTheTruth(ClassesOf(attempts).value, EffectsOf(truths));
  }
}
