// Correlating billing lines with one run: study-1/src/billing-amendment/usage-window.ts,
// line-attribution.ts and billed-cost-check.ts. Instants are milliseconds; a cell's instant is what
// reading the cell gave, if anything.

module UsageWindows {
  import opened Wrappers

  const HOUR_MS: int := 3_600_000

  // Half-open: the start belongs to it, the end does not.
  datatype Interval = Interval(start: int, end: int)

  function ReadInterval(start: Option<int>, end: Option<int>): Option<Interval> {
    if start.None? || end.None? || end.value <= start.value then None else Some(Interval(start.value, end.value))
  }

  function FloorHour(t: int): int {
    t / HOUR_MS * HOUR_MS
  }

  function CeilHour(t: int): int {
    0 - (0 - t) / HOUR_MS * HOUR_MS
  }

  function AttributionWindow(firstMutationAt: int, cleanupTerminalAt: int): Interval {
    Interval(FloorHour(firstMutationAt), CeilHour(cleanupTerminalAt))
  }

  predicate IsContained(inner: Interval, outer: Interval) {
    inner.start >= outer.start && inner.end <= outer.end
  }

  predicate IsDisjoint(a: Interval, b: Interval) {
    a.end <= b.start || b.end <= a.start
  }

  // The window is whole hours, the fewest that hold every instant of the run.
  lemma WindowIsTightest(first: int, terminal: int)
    requires first <= terminal
    ensures var w := AttributionWindow(first, terminal);
            && w.start % 3_600_000 == 0 && w.end % 3_600_000 == 0
            && w.start <= first < w.start + 3_600_000
            && w.end - 3_600_000 < terminal <= w.end
  {
  }

  // A line of one whole hour lies inside the window or outside it, never across its edge.
  lemma HourlyLinesNeverStraddle(first: int, terminal: int, hour: int)
    ensures var line := Interval(hour * HOUR_MS, (hour + 1) * HOUR_MS);
            var w := AttributionWindow(first, terminal);
            IsContained(line, w) || IsDisjoint(line, w)
  {
  }
}

module LineAttribution {
  import opened Wrappers
  import opened UsageWindows
  import opened MoneyDecimals

  datatype CurLine = CurLine(
    lineId: string,
    usageAccountId: string,
    lineItemType: string,
    resourceId: string,
    productCode: string,
    operation: string,
    usageStart: Option<int>,
    usageEnd: Option<int>,
    currency: string,
    cost: string,
    runTag: string)

  datatype Context = Context(
    accountId: string,
    ownershipTag: string,
    resourceIdentities: set<string>,
    chargeAllowlist: map<string, set<string>>,
    window: Interval)

  datatype ExclusionCode =
    TAX | CREDIT | REFUND | DISCOUNT | FEE | SAVINGS_PLAN | OTHER_ACCOUNT | OUTSIDE_USAGE_WINDOW | NOT_RUN_OWNED

  datatype UnverifiedCode =
    INCOMPLETE_ATTRIBUTION | NON_USD_LINE | MIXED_CURRENCY | INCOMPLETE_PERIOD | SHARED_OR_UNOWNED_CHARGE

  datatype AttributedLine = AttributedLine(
    lineId: string,
    productCode: string,
    operation: string,
    resourceId: string,
    usage: Interval,
    currency: string,
    cost: string)

  datatype Disposition =
    | Attributed(line: AttributedLine)
    | Excluded(lineId: string, exclusion: ExclusionCode)
    | Unattributable(lineId: string, code: UnverifiedCode)

  function ExcludedType(lineItemType: string): Option<ExclusionCode> {
    match lineItemType
    case "Tax" => Some(TAX)
    case "Credit" => Some(CREDIT)
    case "Refund" => Some(REFUND)
    case "Discount" => Some(DISCOUNT)
    case "BundledDiscount" => Some(DISCOUNT)
    case "Fee" => Some(FEE)
    case "RIFee" => Some(FEE)
    case "SavingsPlanUpfrontFee" => Some(SAVINGS_PLAN)
    case "SavingsPlanRecurringFee" => Some(SAVINGS_PLAN)
    case "SavingsPlanNegation" => Some(SAVINGS_PLAN)
    case _ => None
  }

  predicate IsCommitmentCovered(lineItemType: string) {
    lineItemType == "SavingsPlanCoveredUsage" || lineItemType == "DiscountedUsage"
  }

  // The characters a trim removes.
  predicate IsSpace(c: char) {
    || '\t' <= c <= '\r' || c == ' ' || c == '\U{A0}' || c == '\U{1680}' || '\U{2000}' <= c <= '\U{200A}'
    || c == '\U{2028}' || c == '\U{2029}' || c == '\U{202F}' || c == '\U{205F}' || c == '\U{3000}' || c == '\U{FEFF}'
  }

  predicate IsBlank(cell: string) {
    forall i | 0 <= i < |cell| :: IsSpace(cell[i])
  }

  predicate IsCurrency(text: string) {
    |text| == 3 && forall i | 0 <= i < 3 :: 'A' <= text[i] <= 'Z'
  }

  // The line types that are no usage, with the exclusion each is given.
  lemma ExcludedTypesExactly(lineItemType: string)
    ensures ExcludedType(lineItemType) == Some(TAX) <==> lineItemType == "Tax"
    ensures ExcludedType(lineItemType) == Some(CREDIT) <==> lineItemType == "Credit"
    ensures ExcludedType(lineItemType) == Some(REFUND) <==> lineItemType == "Refund"
    ensures ExcludedType(lineItemType) == Some(DISCOUNT) <==> lineItemType in ["Discount", "BundledDiscount"]
    ensures ExcludedType(lineItemType) == Some(FEE) <==> lineItemType in ["Fee", "RIFee"]
    ensures ExcludedType(lineItemType) == Some(SAVINGS_PLAN) <==>
              lineItemType in ["SavingsPlanUpfrontFee", "SavingsPlanRecurringFee", "SavingsPlanNegation"]
    ensures ExcludedType(lineItemType).Some? ==>
              ExcludedType(lineItemType).value in {TAX, CREDIT, REFUND, DISCOUNT, FEE, SAVINGS_PLAN}
  {
  }

  // What a trim leaves of a cell.
  function Trimmed(cell: string): string {
    if cell == "" then ""
    else if cell[0] in SPACES then Trimmed(cell[1..])
    else if cell[|cell| - 1] in SPACES then Trimmed(cell[..|cell| - 1])
    else cell
  }

  const SPACES: string :=
    "\t\n\U{B}\U{C}\r \U{A0}\U{1680}\U{2000}\U{2001}\U{2002}\U{2003}\U{2004}\U{2005}\U{2006}\U{2007}\U{2008}" +
    "\U{2009}\U{200A}\U{2028}\U{2029}\U{202F}\U{205F}\U{3000}\U{FEFF}"

  lemma SpacesExactly(c: char)
    ensures IsSpace(c) <==> c in SPACES
  {
  }

  // A cell is blank exactly when a trim leaves nothing of it.
  lemma {:induction false} BlankExactly(cell: string)
    ensures IsBlank(cell) <==> Trimmed(cell) == ""
  {
    hide IsSpace;
    if cell != "" {
      SpacesExactly(cell[0]);
      SpacesExactly(cell[|cell| - 1]);
      if cell[0] in SPACES {
        BlankExactly(cell[1..]);
        assert forall i | 1 <= i < |cell| :: cell[i] == cell[1..][i - 1];
      } else if cell[|cell| - 1] in SPACES {
        BlankExactly(cell[..|cell| - 1]);
      }
    }
  }

  // A currency is three capital letters.
  lemma CurrencyTexts(text: string)
    ensures IsCurrency(text) <==> |text| == 3 && forall c | c in text :: 'A' <= c <= 'Z'
  {
    if |text| == 3 {
      assert text[0] in text && text[1] in text && text[2] in text;
    }
  }

  predicate IsAllowlisted(line: CurLine, ctx: Context) {
    line.productCode in ctx.chargeAllowlist && line.operation in ctx.chargeAllowlist[line.productCode]
  }

  predicate MayBeRunUsage(line: CurLine, ctx: Context) {
    || line.runTag == ctx.ownershipTag || line.resourceId in ctx.resourceIdentities
    || (IsBlank(line.resourceId) && IsAllowlisted(line, ctx))
  }

  function UsageOf(line: CurLine): Option<Interval> {
    ReadInterval(line.usageStart, line.usageEnd)
  }

  function AttributedUsage(line: CurLine, ctx: Context): Disposition {
    var usage := UsageOf(line);
    var cost := ParseCurCost(line.cost);
    if usage.None? || !IsContained(usage.value, ctx.window) || cost.None? || !IsCurrency(line.currency)
    then Unattributable(line.lineId, INCOMPLETE_ATTRIBUTION)
    else Attributed(AttributedLine(line.lineId, line.productCode, line.operation, line.resourceId,
                                   usage.value, line.currency, cost.value))
  }

  function ClassifyUsage(line: CurLine, ctx: Context): Disposition {
    var tagged := line.runTag == ctx.ownershipTag;
    var owned := line.resourceId in ctx.resourceIdentities;
    if IsBlank(line.resourceId) then
      if MayBeRunUsage(line, ctx) then Unattributable(line.lineId, INCOMPLETE_ATTRIBUTION)
      else Excluded(line.lineId, NOT_RUN_OWNED)
    else if !owned && !tagged then Excluded(line.lineId, NOT_RUN_OWNED)
    else if !owned || !tagged then Unattributable(line.lineId, INCOMPLETE_ATTRIBUTION)
    else if !IsAllowlisted(line, ctx) then Unattributable(line.lineId, SHARED_OR_UNOWNED_CHARGE)
    else AttributedUsage(line, ctx)
  }

  function ClassifyByLineType(line: CurLine, ctx: Context): Disposition {
    if line.lineItemType == "Usage" then ClassifyUsage(line, ctx)
    else if !IsCommitmentCovered(line.lineItemType) then Unattributable(line.lineId, SHARED_OR_UNOWNED_CHARGE)
    else if MayBeRunUsage(line, ctx) then Unattributable(line.lineId, SHARED_OR_UNOWNED_CHARGE)
    else Excluded(line.lineId, NOT_RUN_OWNED)
  }

  function ClassifyLine(line: CurLine, ctx: Context): Disposition {
    var excludedType := ExcludedType(line.lineItemType);
    var accountBlank := IsBlank(line.usageAccountId);
    var usage := UsageOf(line);
    if excludedType.Some? then Excluded(line.lineId, excludedType.value)
    else if !accountBlank && line.usageAccountId != ctx.accountId then Excluded(line.lineId, OTHER_ACCOUNT)
    else if usage.Some? && IsDisjoint(usage.value, ctx.window) then Excluded(line.lineId, OUTSIDE_USAGE_WINDOW)
    else if accountBlank then
      if MayBeRunUsage(line, ctx) then Unattributable(line.lineId, INCOMPLETE_ATTRIBUTION)
      else Excluded(line.lineId, NOT_RUN_OWNED)
    else ClassifyByLineType(line, ctx)
  }

  // ---------- the whole export ----------

  function LinesUsed(lines: seq<CurLine>, ctx: Context): seq<AttributedLine> {
    if lines == [] then []
    else
      var d := ClassifyLine(lines[0], ctx);
      (if d.Attributed? then [d.line] else []) + LinesUsed(lines[1..], ctx)
  }

  function Exclusions(lines: seq<CurLine>, ctx: Context): seq<Disposition> {
    if lines == [] then []
    else
      var d := ClassifyLine(lines[0], ctx);
      (if d.Excluded? then [d] else []) + Exclusions(lines[1..], ctx)
  }

  function LeftOver(lines: seq<CurLine>, ctx: Context): seq<Disposition> {
    if lines == [] then []
    else
      var d := ClassifyLine(lines[0], ctx);
      (if d.Unattributable? then [d] else []) + LeftOver(lines[1..], ctx)
  }

  const CODES: seq<UnverifiedCode> :=
    [INCOMPLETE_ATTRIBUTION, NON_USD_LINE, MIXED_CURRENCY, INCOMPLETE_PERIOD, SHARED_OR_UNOWNED_CHARGE]

  predicate HasCode(dispositions: seq<Disposition>, code: UnverifiedCode) {
    exists d | d in dispositions :: d.Unattributable? && d.code == code
  }

  // At most one reason per code, in catalogue order.
  function ReasonsOf(dispositions: seq<Disposition>, codes: seq<UnverifiedCode>): seq<UnverifiedCode> {
    if codes == [] then []
    else (if HasCode(dispositions, codes[0]) then [codes[0]] else []) + ReasonsOf(dispositions, codes[1..])
  }

  datatype Attribution = Attribution(
    window: Interval,
    linesUsed: seq<AttributedLine>,
    exclusions: seq<Disposition>,
    reasons: seq<UnverifiedCode>)

  function Correlate(lines: seq<CurLine>, ctx: Context): Attribution {
    Attribution(ctx.window, LinesUsed(lines, ctx), Exclusions(lines, ctx), ReasonsOf(LeftOver(lines, ctx), CODES))
  }

  // ---------- properties ----------

  // What makes a line attributable: every identity, a contained interval and a readable cost.
  predicate ExactlyTheRuns(line: CurLine, ctx: Context) {
    && line.lineItemType == "Usage"
    && !IsBlank(line.usageAccountId) && line.usageAccountId == ctx.accountId
    && !IsBlank(line.resourceId) && line.resourceId in ctx.resourceIdentities
    && line.runTag == ctx.ownershipTag
    && IsAllowlisted(line, ctx)
    && UsageOf(line).Some? && IsContained(UsageOf(line).value, ctx.window)
    && ParseCurCost(line.cost).Some?
    && IsCurrency(line.currency)
  }

  lemma AttributedExactly(line: CurLine, ctx: Context)
    ensures ClassifyLine(line, ctx).Attributed? <==> ExactlyTheRuns(line, ctx)
  {
    hide ParseCurCost;
  }

  // Excluded as something that is certainly not the run's usage.
  predicate RightlySetAside(line: CurLine, ctx: Context) {
    || ExcludedType(line.lineItemType).Some?
    || (!IsBlank(line.usageAccountId) && line.usageAccountId != ctx.accountId)
    || (UsageOf(line).Some? && IsDisjoint(UsageOf(line).value, ctx.window))
  }

  lemma NoRunUsageIsExcluded(line: CurLine, ctx: Context)
    requires MayBeRunUsage(line, ctx) && !RightlySetAside(line, ctx)
    ensures !ClassifyLine(line, ctx).Excluded?
  {
    hide ParseCurCost, ExcludedType, IsBlank, IsCurrency;
  }

  // Set aside for what the line itself says: rightly, or because it carries nothing of the run and is of
  // a type (or without the account) that may be excluded for that.
  predicate IsSetAside(line: CurLine, ctx: Context) {
    || RightlySetAside(line, ctx)
    || (&& !MayBeRunUsage(line, ctx)
        && (|| IsBlank(line.usageAccountId)
            || line.lineItemType in {"Usage", "SavingsPlanCoveredUsage", "DiscountedUsage"}))
  }

  // A charge that is shared, or of the run's resource and tag but for nothing the run may buy.
  predicate IsShared(line: CurLine, ctx: Context) {
    && !IsBlank(line.usageAccountId)
    && if line.lineItemType == "Usage" then
         && !IsBlank(line.resourceId) && line.resourceId in ctx.resourceIdentities
         && line.runTag == ctx.ownershipTag && !IsAllowlisted(line, ctx)
       else true
  }

  // Every line is exactly the run's, set aside, or left over, shared or incomplete; and whatever becomes
  // of it names the line.
  lemma ClassifiedExactly(line: CurLine, ctx: Context)
    ensures var d := ClassifyLine(line, ctx);
      if ExactlyTheRuns(line, ctx) then
        d == Attributed(AttributedLine(line.lineId, line.productCode, line.operation, line.resourceId,
                                       UsageOf(line).value, line.currency, ParseCurCost(line.cost).value))
      else if IsSetAside(line, ctx) then d.Excluded? && d.lineId == line.lineId
      else d == Unattributable(line.lineId, if IsShared(line, ctx)
          then SHARED_OR_UNOWNED_CHARGE else INCOMPLETE_ATTRIBUTION)
    ensures ExactlyTheRuns(line, ctx) ==> !IsSetAside(line, ctx)
  {
    hide ParseCurCost, IsBlank, IsCurrency;
  }

  // Why a line is set aside: its type, its account, its interval, in this order, or that nothing of the
  // run is in it.
  lemma ExclusionExactly(line: CurLine, ctx: Context)
    requires IsSetAside(line, ctx)
    ensures ClassifyLine(line, ctx) == Excluded(line.lineId,
      if ExcludedType(line.lineItemType).Some? then ExcludedType(line.lineItemType).value
      else if !IsBlank(line.usageAccountId) && line.usageAccountId != ctx.accountId then OTHER_ACCOUNT
      else if UsageOf(line).Some? && IsDisjoint(UsageOf(line).value, ctx.window) then OUTSIDE_USAGE_WINDOW
      else NOT_RUN_OWNED)
  {
    hide ParseCurCost, IsBlank, IsCurrency, ExcludedType;
  }

  // What becomes of each line, in the export's order.
  function Dispositions(lines: seq<CurLine>, ctx: Context): seq<Disposition> {
    if lines == [] then [] else [ClassifyLine(lines[0], ctx)] + Dispositions(lines[1..], ctx)
  }

  function AsAttributed(used: seq<AttributedLine>): (ds: seq<Disposition>)
    ensures |ds| == |used| && forall i | 0 <= i < |used| :: ds[i] == Attributed(used[i])
  {
    seq(|used|, i requires 0 <= i < |used| => Attributed(used[i]))
  }

  // The three lists of an export with one more line.
  lemma OneMoreLine(line: CurLine, rest: seq<CurLine>, ctx: Context)
    ensures var lines, d := [line] + rest, ClassifyLine(line, ctx);
      && AsAttributed(LinesUsed(lines, ctx)) == (if d.Attributed? then [d] else []) + AsAttributed(LinesUsed(rest, ctx))
      && Exclusions(lines, ctx) == (if d.Excluded? then [d] else []) + Exclusions(rest, ctx)
      && LeftOver(lines, ctx) == (if d.Unattributable? then [d] else []) + LeftOver(rest, ctx)
      && Dispositions(lines, ctx) == [d] + Dispositions(rest, ctx)
  {
    hide ClassifyLine;
    assert ([line] + rest)[1..] == rest;
  }

  // The three lists hold what becomes of every line exactly as often as the export has it.
  lemma {:induction false} DispositionsPartition(lines: seq<CurLine>, ctx: Context)
    ensures multiset(AsAttributed(LinesUsed(lines, ctx)))
            + multiset(Exclusions(lines, ctx)) + multiset(LeftOver(lines, ctx))
         == multiset(Dispositions(lines, ctx))
  {
    if lines != [] {
      hide LinesUsed, Exclusions, LeftOver, Dispositions, AsAttributed;
      DispositionsPartition(lines[1..], ctx);
      assert lines == [lines[0]] + lines[1..];
      PartitionStep(lines[0], lines[1..], ctx);
    }
  }

  lemma PartitionStep(line: CurLine, rest: seq<CurLine>, ctx: Context)
    requires multiset(AsAttributed(LinesUsed(rest, ctx)))
             + multiset(Exclusions(rest, ctx)) + multiset(LeftOver(rest, ctx))
          == multiset(Dispositions(rest, ctx))
    ensures multiset(AsAttributed(LinesUsed([line] + rest, ctx)))
            + multiset(Exclusions([line] + rest, ctx)) + multiset(LeftOver([line] + rest, ctx))
         == multiset(Dispositions([line] + rest, ctx))
  {
    hide ClassifyLine, LinesUsed, Exclusions, LeftOver, Dispositions, AsAttributed;
    OneMoreLine(line, rest, ctx);
    OneMoreCounts(ClassifyLine(line, ctx), AsAttributed(LinesUsed(rest, ctx)), Exclusions(rest, ctx),
                  LeftOver(rest, ctx), Dispositions(rest, ctx));
  }

  lemma OneMoreCounts<T>(x: T, a: seq<T>, b: seq<T>, c: seq<T>, all: seq<T>)
    requires multiset(a) + multiset(b) + multiset(c) == multiset(all)
    ensures multiset([x] + a) + multiset([] + b) + multiset([] + c) == multiset([x] + all)
    ensures multiset([] + a) + multiset([x] + b) + multiset([] + c) == multiset([x] + all)
    ensures multiset([] + a) + multiset([] + b) + multiset([x] + c) == multiset([x] + all)
  {
    assert [] + a == a && [] + b == b && [] + c == c;
  }

  // Each list holds its own kind only.
  lemma {:induction false} EachInItsList(lines: seq<CurLine>, ctx: Context, d: Disposition)
    ensures d in AsAttributed(LinesUsed(lines, ctx)) ==> d.Attributed?
    ensures d in Exclusions(lines, ctx) ==> d.Excluded?
    ensures d in LeftOver(lines, ctx) ==> d.Unattributable?
  {
    hide ClassifyLine;
    if lines != [] {
      EachInItsList(lines[1..], ctx, d);
    }
  }

  lemma {:induction false} LineHasDisposition(lines: seq<CurLine>, ctx: Context, line: CurLine)
    requires line in lines
    ensures ClassifyLine(line, ctx) in multiset(Dispositions(lines, ctx))
  {
    hide ClassifyLine;
    if line != lines[0] {
      LineHasDisposition(lines[1..], ctx, line);
    }
  }

  lemma {:induction false} ReasonPerCode(dispositions: seq<Disposition>, codes: seq<UnverifiedCode>,
                                         code: UnverifiedCode)
    requires code in codes && HasCode(dispositions, code)
    ensures ReasonsOf(dispositions, codes) != []
  {
    hide HasCode;
    if codes[0] != code {
      ReasonPerCode(dispositions, codes[1..], code);
    }
  }

  // An unattributable line always leaves a reason.
  lemma LeftOverLeavesReason(dispositions: seq<Disposition>)
    requires exists d | d in dispositions :: d.Unattributable?
    ensures ReasonsOf(dispositions, CODES) != []
  {
    var d :| d in dispositions && d.Unattributable?;
    assert HasCode(dispositions, d.code);
    ReasonPerCode(dispositions, CODES, d.code);
  }
}

module BilledCostCheck {
  import opened Wrappers
  import opened UsageWindows
  import opened MoneyDecimals
  import opened LineAttribution

  datatype Assessment =
    | Unverified(reasons: seq<UnverifiedCode>)
    | WithinLimit(total: string)
    | Breached(total: string)

  datatype Period = Period(start: int, end: int, final: bool)

  function PeriodReasons(period: Period, window: Interval): seq<UnverifiedCode> {
    if period.final && IsContained(window, Interval(period.start, period.end)) then [] else [INCOMPLETE_PERIOD]
  }

  function CurrencyReasons(used: seq<AttributedLine>): seq<UnverifiedCode> {
    (if exists line | line in used :: line.currency != "USD" then [NON_USD_LINE] else [])
    + (if |set line | line in used :: line.currency| > 1 then [MIXED_CURRENCY] else [])
  }

  function WithCode(reasons: seq<UnverifiedCode>, code: UnverifiedCode): seq<UnverifiedCode> {
    if reasons == [] then []
    else (if reasons[0] == code then [code] else []) + WithCode(reasons[1..], code)
  }

  // A stable sort by the catalogue order of the codes.
  function Sorted(reasons: seq<UnverifiedCode>): seq<UnverifiedCode> {
    WithCode(reasons, INCOMPLETE_ATTRIBUTION) + WithCode(reasons, NON_USD_LINE) + WithCode(reasons, MIXED_CURRENCY)
    + WithCode(reasons, INCOMPLETE_PERIOD) + WithCode(reasons, SHARED_OR_UNOWNED_CHARGE)
  }

  function CostsOf(used: seq<AttributedLine>): seq<string> {
    seq(|used|, i requires 0 <= i < |used| => used[i].cost)
  }

  function DeriveCheck(a: Attribution, ceiling: string): Assessment
    requires AllMoney(CostsOf(a.linesUsed)) && IsMoneyDecimal(ceiling)
    requires IsMoneyDecimal(SumMoney(CostsOf(a.linesUsed)))
  {
    var reasons := Sorted(a.reasons + CurrencyReasons(a.linesUsed));
    if reasons != [] then Unverified(reasons)
    else
      var total := SumMoney(CostsOf(a.linesUsed));
      if CompareMoney(total, ceiling) <= 0 then WithinLimit(total) else Breached(total)
  }

  lemma {:induction false} WithCodeKeeps(reasons: seq<UnverifiedCode>, code: UnverifiedCode)
    requires code in reasons
    ensures WithCode(reasons, code) != []
  {
    if reasons[0] != code {
      WithCodeKeeps(reasons[1..], code);
    }
  }

  lemma SortedKeeps(reasons: seq<UnverifiedCode>)
    requires reasons != []
    ensures Sorted(reasons) != []
  {
    WithCodeKeeps(reasons, reasons[0]);
  }

  predicate CameFrom(used: AttributedLine, line: CurLine, ctx: Context) {
    ExactlyTheRuns(line, ctx) && ClassifyLine(line, ctx) == Attributed(used)
  }

  // Every line in the total is exactly the run's.
  lemma {:induction false} UsedLinesAreExact(lines: seq<CurLine>, ctx: Context, used: AttributedLine)
    requires used in LinesUsed(lines, ctx)
    ensures exists line :: line in lines && CameFrom(used, line, ctx)
  {
    hide ClassifyLine, ExactlyTheRuns;
    AttributedExactly(lines[0], ctx);
    if ClassifyLine(lines[0], ctx) == Attributed(used) {
      assert CameFrom(used, lines[0], ctx);
    } else {
      UsedLinesAreExact(lines[1..], ctx, used);
      var line :| line in lines[1..] && CameFrom(used, line, ctx);
    }
  }

  lemma AttributedCost(line: CurLine, ctx: Context)
    requires ClassifyLine(line, ctx).Attributed?
    ensures var used := ClassifyLine(line, ctx).line;
            && Some(used.cost) == ParseCurCost(line.cost) && IsMoneyDecimal(used.cost)
            && used.currency == line.currency && Some(used.usage) == UsageOf(line)
  {
    hide ParseCurCost, IsMoneyDecimal, ExcludedType, IsBlank, IsCurrency;
    AcceptedCostIsMoney(line.cost);
  }

  // The costs of the lines used always add up: the check is defined on every export.
  lemma CostsAreMoney(lines: seq<CurLine>, ctx: Context)
    ensures AllMoney(CostsOf(LinesUsed(lines, ctx)))
    ensures IsMoneyDecimal(SumMoney(CostsOf(LinesUsed(lines, ctx))))
    ensures ValueOf(SumMoney(CostsOf(LinesUsed(lines, ctx)))) == SumOfValues(CostsOf(LinesUsed(lines, ctx)))
  {
    hide ClassifyLine, ParseCurCost, IsMoneyDecimal, ValueOf, SumMoney;
    var used := LinesUsed(lines, ctx);
    forall k | 0 <= k < |used|
      ensures IsMoneyDecimal(CostsOf(used)[k])
    {
      UsedLinesAreExact(lines, ctx, used[k]);
      var line :| line in lines && CameFrom(used[k], line, ctx);
      AttributedCost(line, ctx);
    }
    SumIsExact(CostsOf(used));
  }

  // The whole import: attribution, period and the check against the declared ceiling.
  function Assess(lines: seq<CurLine>, ctx: Context, period: Period, ceiling: string): Assessment
    requires IsMoneyDecimal(ceiling)
  {
    CostsAreMoney(lines, ctx);
    var a := Correlate(lines, ctx);
    DeriveCheck(a.(reasons := a.reasons + PeriodReasons(period, ctx.window)), ceiling)
  }

  // In the total as often as the export has it, in dollars and inside the window.
  predicate Counted(line: CurLine, lines: seq<CurLine>, ctx: Context) {
    && ExactlyTheRuns(line, ctx)
    && multiset(AsAttributed(LinesUsed(lines, ctx)))[ClassifyLine(line, ctx)]
       == multiset(Dispositions(lines, ctx))[ClassifyLine(line, ctx)] > 0
    && line.currency == "USD"
    && UsageOf(line).Some? && IsContained(UsageOf(line).value, ctx.window)
  }

  lemma VerifiedMeansNoReason(lines: seq<CurLine>, ctx: Context, period: Period, ceiling: string)
    requires IsMoneyDecimal(ceiling) && !Assess(lines, ctx, period, ceiling).Unverified?
    ensures ReasonsOf(LeftOver(lines, ctx), CODES) == []
    ensures PeriodReasons(period, ctx.window) == []
    ensures CurrencyReasons(LinesUsed(lines, ctx)) == []
  {
    hide SumMoney, CompareMoney, IsMoneyDecimal, Sorted, ReasonsOf, CurrencyReasons, PeriodReasons, ClassifyLine,
         LinesUsed;
    CostsAreMoney(lines, ctx);
    var a := Correlate(lines, ctx);
    var reasons := a.reasons + PeriodReasons(period, ctx.window) + CurrencyReasons(a.linesUsed);
    if reasons != [] {
      SortedKeeps(reasons);
    }
  }

  // A verified check leaves no run usage out: every line that may be the run's, and that is not of
  // an excluded type, another account's or readably outside the window, is in the total.
  lemma NoRunUsageLeftOut(lines: seq<CurLine>, ctx: Context, period: Period, ceiling: string, line: CurLine)
    requires IsMoneyDecimal(ceiling) && !Assess(lines, ctx, period, ceiling).Unverified?
    requires line in lines && MayBeRunUsage(line, ctx) && !RightlySetAside(line, ctx)
    ensures Counted(line, lines, ctx)
  {
    hide ClassifyLine, ReasonsOf, PeriodReasons, MayBeRunUsage, RightlySetAside, IsMoneyDecimal, Assess, IsContained,
         LinesUsed, Exclusions, LeftOver, Dispositions, AsAttributed, CurrencyReasons;
    VerifiedMeansNoReason(lines, ctx, period, ceiling);
    NoRunUsageIsExcluded(line, ctx);
    var d := ClassifyLine(line, ctx);
    LineHasDisposition(lines, ctx, line);
    DispositionsPartition(lines, ctx);
    EachInItsList(lines, ctx, d);
    if d.Unattributable? {
      assert d in multiset(LeftOver(lines, ctx));
      LeftOverLeavesReason(LeftOver(lines, ctx));
    }
    AttributedExactly(line, ctx);
    AttributedCost(line, ctx);
    assert d in AsAttributed(LinesUsed(lines, ctx));
    OnlyDollars(LinesUsed(lines, ctx), d.line);
  }

  lemma OnlyDollars(used: seq<AttributedLine>, line: AttributedLine)
    requires CurrencyReasons(used) == [] && line in used
    ensures line.currency == "USD"
  {
    var foreign := if exists other | other in used :: other.currency != "USD" then [NON_USD_LINE] else [];
    assert foreign <= CurrencyReasons(used);
  }

  // ---------- the total is the export's ----------

  // What the lines that are exactly the run's cost, read off the export itself.
  ghost function RunCost(lines: seq<CurLine>, ctx: Context): real {
    if lines == [] then 0.0
    else (if ExactlyTheRuns(lines[0], ctx) then CostOf(lines[0]) else 0.0) + RunCost(lines[1..], ctx)
  }

  ghost function CostOf(line: CurLine): real {
    var cost := ParseCurCost(line.cost);
    if cost.Some? && IsMoneyDecimal(cost.value) then ValueOf(cost.value) else 0.0
  }

  lemma {:induction false} UsedIsRunCost(lines: seq<CurLine>, ctx: Context)
    ensures AllMoney(CostsOf(LinesUsed(lines, ctx)))
    ensures SumOfValues(CostsOf(LinesUsed(lines, ctx))) == RunCost(lines, ctx)
  {
    if lines == [] {
      NothingSums();
    } else {
      hide ClassifyLine, ExactlyTheRuns, SumOfValues, LinesUsed, CostsOf, AllMoney, CostOf;
      var line, rest := lines[0], lines[1..];
      UsedIsRunCost(rest, ctx);
      assert lines == [line] + rest;
      CostsFromFront(line, rest, ctx);
      OneLineSums(line, ctx);
      SumFromFront(CostsIn(line, ctx), CostsOf(LinesUsed(rest, ctx)));
    }
  }

  function CostsIn(line: CurLine, ctx: Context): seq<string> {
    var d := ClassifyLine(line, ctx);
    if d.Attributed? then [d.line.cost] else []
  }

  lemma OneLineSums(line: CurLine, ctx: Context)
    ensures AllMoney(CostsIn(line, ctx))
    ensures SumOfValues(CostsIn(line, ctx)) == if ExactlyTheRuns(line, ctx) then CostOf(line) else 0.0
  {
    hide ClassifyLine, ExactlyTheRuns, ParseCurCost, IsMoneyDecimal, ValueOf, SumOfValues;
    AttributedExactly(line, ctx);
    if ClassifyLine(line, ctx).Attributed? {
      AttributedCost(line, ctx);
      OneSums(ClassifyLine(line, ctx).line.cost);
    } else {
      NothingSums();
    }
  }

  lemma CostsFromFront(line: CurLine, rest: seq<CurLine>, ctx: Context)
    ensures CostsOf(LinesUsed([line] + rest, ctx)) == CostsIn(line, ctx) + CostsOf(LinesUsed(rest, ctx))
  {
    hide ClassifyLine;
    assert ([line] + rest)[1..] == rest;
  }

  lemma NothingSums()
    ensures SumOfValues([]) == 0.0
  {
  }

  lemma OneSums(cost: string)
    requires IsMoneyDecimal(cost)
    ensures AllMoney([cost]) && SumOfValues([cost]) == ValueOf(cost)
  {
    hide IsMoneyDecimal, ValueOf;
    assert [cost][..0] == [];
  }

  lemma {:induction false} SumFromFront(a: seq<string>, b: seq<string>)
    requires AllMoney(a) && AllMoney(b)
    ensures AllMoney(a + b) && SumOfValues(a + b) == SumOfValues(a) + SumOfValues(b)
    decreases |b|
  {
    hide IsMoneyDecimal, ValueOf;
    if b == [] {
      assert a + b == a;
    } else {
      var n := |b| - 1;
      SumFromFront(a, b[..n]);
      assert (a + b)[..|a + b| - 1] == a + b[..n];
    }
  }

  // And the verdict compares what the run's lines of the export cost, exactly, with the ceiling, over
  // a final period that covers the window.
  lemma VerdictIsExact(lines: seq<CurLine>, ctx: Context, period: Period, ceiling: string)
    requires IsMoneyDecimal(ceiling) && !Assess(lines, ctx, period, ceiling).Unverified?
    ensures var total, verdict := RunCost(lines, ctx), Assess(lines, ctx, period, ceiling);
            && IsMoneyDecimal(verdict.total) && ValueOf(verdict.total) == total
            && (verdict.WithinLimit? <==> total <= ValueOf(ceiling))
    ensures period.final && period.start <= ctx.window.start && ctx.window.end <= period.end
  {
    hide SumMoney, CompareMoney, IsMoneyDecimal, ValueOf, SumOfValues, ReasonsOf, CurrencyReasons, LinesUsed, RunCost;
    VerifiedMeansNoReason(lines, ctx, period, ceiling);
    CostsAreMoney(lines, ctx);
    UsedIsRunCost(lines, ctx);
    CompareIsTheOrder(SumMoney(CostsOf(LinesUsed(lines, ctx))), ceiling);
  }

  // ---------- when a check is verified ----------

  // The line is the run's and in dollars, or set aside for what it says itself.
  predicate IsSettled(line: CurLine, ctx: Context) {
    if ExactlyTheRuns(line, ctx) then line.currency == "USD" else IsSetAside(line, ctx)
  }

  ghost predicate AllSettled(lines: seq<CurLine>, ctx: Context) {
    forall i | 0 <= i < |lines| :: IsSettled(lines[i], ctx)
  }

  predicate IsCovered(period: Period, ctx: Context) {
    period.final && period.start <= ctx.window.start && ctx.window.end <= period.end
  }

  // What gives each reason.
  ghost predicate HasCause(code: UnverifiedCode, lines: seq<CurLine>, ctx: Context, period: Period) {
    match code
    case INCOMPLETE_ATTRIBUTION => exists i | 0 <= i < |lines| :: IsUnsettled(lines[i], ctx) && !IsShared(lines[i], ctx)
    case SHARED_OR_UNOWNED_CHARGE =>
      exists i | 0 <= i < |lines| :: IsUnsettled(lines[i], ctx) && IsShared(lines[i], ctx)
    case NON_USD_LINE => exists i | 0 <= i < |lines| :: ExactlyTheRuns(lines[i], ctx) && lines[i].currency != "USD"
    case MIXED_CURRENCY =>
      exists i, j | 0 <= i < |lines| && 0 <= j < |lines| ::
        ExactlyTheRuns(lines[i], ctx) && ExactlyTheRuns(lines[j], ctx) && lines[i].currency != lines[j].currency
    case INCOMPLETE_PERIOD => !IsCovered(period, ctx)
  }

  predicate IsUnsettled(line: CurLine, ctx: Context) {
    !ExactlyTheRuns(line, ctx) && !IsSetAside(line, ctx)
  }

  lemma {:induction false} LeftOverExactly(lines: seq<CurLine>, ctx: Context, d: Disposition)
    ensures d in LeftOver(lines, ctx) <==>
              d.Unattributable? && exists i | 0 <= i < |lines| :: ClassifyLine(lines[i], ctx) == d
  {
    hide ClassifyLine;
    if lines != [] {
      LeftOverExactly(lines[1..], ctx, d);
      if i :| 0 <= i < |lines[1..]| && ClassifyLine(lines[1..][i], ctx) == d {
        assert ClassifyLine(lines[i + 1], ctx) == d;
      }
    }
  }

  lemma {:induction false} ReasonsExactly(dispositions: seq<Disposition>, codes: seq<UnverifiedCode>,
                                          code: UnverifiedCode)
    ensures code in ReasonsOf(dispositions, codes) <==> code in codes && HasCode(dispositions, code)
  {
    hide HasCode;
    if codes != [] {
      ReasonsExactly(dispositions, codes[1..], code);
    }
  }

  lemma CodesAreCauses(lines: seq<CurLine>, ctx: Context, code: UnverifiedCode)
    ensures HasCode(LeftOver(lines, ctx), code) <==>
              || (code == INCOMPLETE_ATTRIBUTION &&
                  exists i | 0 <= i < |lines| :: IsUnsettled(lines[i], ctx) && !IsShared(lines[i], ctx))
              || (code == SHARED_OR_UNOWNED_CHARGE &&
                  exists i | 0 <= i < |lines| :: IsUnsettled(lines[i], ctx) && IsShared(lines[i], ctx))
  {
    hide ClassifyLine, IsShared, ExactlyTheRuns, IsSetAside, LeftOver;
    if HasCode(LeftOver(lines, ctx), code) {
      var d :| d in LeftOver(lines, ctx) && d.Unattributable? && d.code == code;
      LeftOverExactly(lines, ctx, d);
      var i :| 0 <= i < |lines| && ClassifyLine(lines[i], ctx) == d;
      ClassifiedExactly(lines[i], ctx);
      assert IsUnsettled(lines[i], ctx);
    }
    forall i | 0 <= i < |lines| && IsUnsettled(lines[i], ctx)
      && code == (if IsShared(lines[i], ctx) then SHARED_OR_UNOWNED_CHARGE else INCOMPLETE_ATTRIBUTION)
      ensures HasCode(LeftOver(lines, ctx), code)
    {
      ClassifiedExactly(lines[i], ctx);
      LeftOverExactly(lines, ctx, ClassifyLine(lines[i], ctx));
    }
  }

  lemma {:induction false} UsedExactly(lines: seq<CurLine>, ctx: Context, currency: string)
    ensures (exists used | used in LinesUsed(lines, ctx) :: used.currency == currency) <==>
            (exists i | 0 <= i < |lines| :: ExactlyTheRuns(lines[i], ctx) && lines[i].currency == currency)
  {
    hide ClassifyLine, ExactlyTheRuns;
    if lines != [] {
      UsedExactly(lines[1..], ctx, currency);
      ClassifiedExactly(lines[0], ctx);
      UsedFromFront(lines, ctx, currency);
    }
  }

  lemma UsedFromFront(lines: seq<CurLine>, ctx: Context, currency: string)
    requires lines != []
    ensures (exists used | used in LinesUsed(lines, ctx) :: used.currency == currency) <==>
            || (ClassifyLine(lines[0], ctx).Attributed? && ClassifyLine(lines[0], ctx).line.currency == currency)
            || (exists used | used in LinesUsed(lines[1..], ctx) :: used.currency == currency)
    ensures (exists i | 0 <= i < |lines| :: ExactlyTheRuns(lines[i], ctx) && lines[i].currency == currency) <==>
            || (ExactlyTheRuns(lines[0], ctx) && lines[0].currency == currency)
            || (exists i | 0 <= i < |lines[1..]| ::
                  ExactlyTheRuns(lines[1..][i], ctx) && lines[1..][i].currency == currency)
  {
    hide ClassifyLine, ExactlyTheRuns;
    assert forall i | 0 <= i < |lines[1..]| :: lines[1..][i] == lines[i + 1];
    assert forall i | 1 <= i < |lines| :: lines[i] == lines[1..][i - 1];
  }

  function CurrenciesOf(used: seq<AttributedLine>): set<string> {
    set line | line in used :: line.currency
  }

  // Some line is the run's, in this currency.
  ghost predicate RunsIn(lines: seq<CurLine>, ctx: Context, currency: string) {
    exists i | 0 <= i < |lines| :: ExactlyTheRuns(lines[i], ctx) && lines[i].currency == currency
  }

  lemma CurrenciesUsed(lines: seq<CurLine>, ctx: Context, currency: string)
    ensures currency in CurrenciesOf(LinesUsed(lines, ctx)) <==> RunsIn(lines, ctx, currency)
  {
    hide ExactlyTheRuns, LinesUsed;
    UsedExactly(lines, ctx, currency);
  }

  lemma MoreThanOne(s: set<string>)
    ensures |s| > 1 <==> exists a, b | a in s && b in s :: a != b
  {
    if |s| > 1 {
      var a :| a in s;
      var rest := s - {a};
      assert |rest| > 0;
      var b :| b in rest;
    }
    if a, b :| a in s && b in s && a != b {
      assert {a, b} <= s;
      SubsetIsSmaller({a, b}, s);
    }
  }

  lemma SubsetIsSmaller(small: set<string>, large: set<string>)
    requires small <= large
    ensures |small| <= |large|
  {
    assert large == small + (large - small);
  }

  lemma CurrencyCodes(used: seq<AttributedLine>, code: UnverifiedCode)
    ensures code in CurrencyReasons(used) <==>
              || (code == NON_USD_LINE && exists c | c in CurrenciesOf(used) :: c != "USD")
              || (code == MIXED_CURRENCY && |CurrenciesOf(used)| > 1)
  {
    if line :| line in used && line.currency != "USD" {
      assert line.currency in CurrenciesOf(used);
    }
    if c :| c in CurrenciesOf(used) && c != "USD" {
      var line :| line in used && line.currency == c;
    }
    assert CurrenciesOf(used) == set line | line in used :: line.currency;
  }

  lemma ForeignCause(lines: seq<CurLine>, ctx: Context, period: Period, currencies: set<string>)
    requires forall c :: c in currencies <==> RunsIn(lines, ctx, c)
    ensures (exists c | c in currencies :: c != "USD") <==> HasCause(NON_USD_LINE, lines, ctx, period)
  {
    hide ExactlyTheRuns;
    if i :| 0 <= i < |lines| && ExactlyTheRuns(lines[i], ctx) && lines[i].currency != "USD" {
      assert RunsIn(lines, ctx, lines[i].currency);
    }
  }

  lemma MixedCause(lines: seq<CurLine>, ctx: Context, period: Period, currencies: set<string>)
    requires forall c :: c in currencies <==> RunsIn(lines, ctx, c)
    ensures (exists a, b | a in currencies && b in currencies :: a != b) <==>
        HasCause(MIXED_CURRENCY, lines, ctx, period)
  {
    hide ExactlyTheRuns;
    if a, b :| a in currencies && b in currencies && a != b {
      var i :| 0 <= i < |lines| && ExactlyTheRuns(lines[i], ctx) && lines[i].currency == a;
      var j :| 0 <= j < |lines| && ExactlyTheRuns(lines[j], ctx) && lines[j].currency == b;
    }
    if HasCause(MIXED_CURRENCY, lines, ctx, period) {
      var i, j :| 0 <= i < |lines| && 0 <= j < |lines| &&
        ExactlyTheRuns(lines[i], ctx) && ExactlyTheRuns(lines[j], ctx) && lines[i].currency != lines[j].currency;
      assert RunsIn(lines, ctx, lines[i].currency) && RunsIn(lines, ctx, lines[j].currency);
    }
  }

  lemma CurrencyExactly(lines: seq<CurLine>, ctx: Context, period: Period, code: UnverifiedCode)
    ensures code in CurrencyReasons(LinesUsed(lines, ctx)) <==>
              (code == NON_USD_LINE || code == MIXED_CURRENCY) && HasCause(code, lines, ctx, period)
  {
    hide LinesUsed, HasCause, RunsIn, CurrencyReasons, CurrenciesOf;
    var used := LinesUsed(lines, ctx);
    CurrencyCodes(used, code);
    forall c
      ensures c in CurrenciesOf(used) <==> RunsIn(lines, ctx, c)
    {
      CurrenciesUsed(lines, ctx, c);
    }
    ForeignCause(lines, ctx, period, CurrenciesOf(used));
    MixedCause(lines, ctx, period, CurrenciesOf(used));
    MoreThanOne(CurrenciesOf(used));
  }

  lemma {:induction false} WithCodeExactly(reasons: seq<UnverifiedCode>, code: UnverifiedCode, other: UnverifiedCode)
    ensures other in WithCode(reasons, code) <==> other == code && code in reasons
  {
    if reasons != [] {
      WithCodeExactly(reasons[1..], code, other);
    }
  }

  lemma SortedExactly(reasons: seq<UnverifiedCode>, code: UnverifiedCode)
    ensures code in Sorted(reasons) <==> code in reasons
  {
    hide WithCode;
    WithCodeExactly(reasons, INCOMPLETE_ATTRIBUTION, code);
    WithCodeExactly(reasons, NON_USD_LINE, code);
    WithCodeExactly(reasons, MIXED_CURRENCY, code);
    WithCodeExactly(reasons, INCOMPLETE_PERIOD, code);
    WithCodeExactly(reasons, SHARED_OR_UNOWNED_CHARGE, code);
  }

  ghost function AllReasons(lines: seq<CurLine>, ctx: Context, period: Period): seq<UnverifiedCode> {
    Sorted(ReasonsOf(LeftOver(lines, ctx), CODES) + PeriodReasons(period, ctx.window)
           + CurrencyReasons(LinesUsed(lines, ctx)))
  }

  lemma ReasonsAreCauses(lines: seq<CurLine>, ctx: Context, period: Period, code: UnverifiedCode)
    ensures code in AllReasons(lines, ctx, period) <==> HasCause(code, lines, ctx, period)
  {
    hide ReasonsOf, CurrencyReasons, Sorted, LeftOver, LinesUsed, HasCode, ExactlyTheRuns, IsSetAside, IsShared;
    SortedExactly(ReasonsOf(LeftOver(lines, ctx), CODES) + PeriodReasons(period, ctx.window)
                  + CurrencyReasons(LinesUsed(lines, ctx)), code);
    ReasonsExactly(LeftOver(lines, ctx), CODES, code);
    CodesAreCauses(lines, ctx, code);
    CurrencyExactly(lines, ctx, period, code);
    assert code in CODES by {
      assert CODES[0] == INCOMPLETE_ATTRIBUTION && CODES[1] == NON_USD_LINE && CODES[2] == MIXED_CURRENCY;
      assert CODES[3] == INCOMPLETE_PERIOD && CODES[4] == SHARED_OR_UNOWNED_CHARGE;
    }
  }

  lemma AssessExactly(lines: seq<CurLine>, ctx: Context, period: Period, ceiling: string)
    requires IsMoneyDecimal(ceiling)
    ensures var reasons := AllReasons(lines, ctx, period);
      if reasons == [] then !Assess(lines, ctx, period, ceiling).Unverified?
      else Assess(lines, ctx, period, ceiling) == Unverified(reasons)
  {
    hide SumMoney, CompareMoney, IsMoneyDecimal, Sorted, ReasonsOf, CurrencyReasons, PeriodReasons, LinesUsed, LeftOver;
    CostsAreMoney(lines, ctx);
  }

  // A check is verified if and only if the period is final and covers the window, every line that is
  // exactly the run's is in dollars, and every other line is set aside for what it says itself; and an
  // unverified one lists exactly the reasons that have a cause.
  lemma VerifiedExactly(lines: seq<CurLine>, ctx: Context, period: Period, ceiling: string)
    requires IsMoneyDecimal(ceiling)
    ensures !Assess(lines, ctx, period, ceiling).Unverified? <==> IsCovered(period, ctx) && AllSettled(lines, ctx)
    ensures Assess(lines, ctx, period, ceiling).Unverified? ==>
              forall code :: code in Assess(lines, ctx, period, ceiling).reasons <==> HasCause(code, lines, ctx, period)
  {
    hide Assess, AllReasons, IsMoneyDecimal, ExactlyTheRuns, IsSetAside, IsShared, IsCovered;
    AssessExactly(lines, ctx, period, ceiling);
    forall code
      ensures code in AllReasons(lines, ctx, period) <==> HasCause(code, lines, ctx, period)
    {
      ReasonsAreCauses(lines, ctx, period, code);
    }
    if !Assess(lines, ctx, period, ceiling).Unverified? {
      assert !HasCause(INCOMPLETE_PERIOD, lines, ctx, period) && !HasCause(NON_USD_LINE, lines, ctx, period);
      assert !HasCause(INCOMPLETE_ATTRIBUTION, lines, ctx, period);
      assert !HasCause(SHARED_OR_UNOWNED_CHARGE, lines, ctx, period);
      forall i | 0 <= i < |lines|
        ensures IsSettled(lines[i], ctx)
      {
        assert !IsUnsettled(lines[i], ctx);
      }
    } else if IsCovered(period, ctx) && AllSettled(lines, ctx) {
      SettledHasNoCause(lines, ctx, period, AllReasons(lines, ctx, period)[0]);
    }
  }

  lemma SettledHasNoCause(lines: seq<CurLine>, ctx: Context, period: Period, code: UnverifiedCode)
    requires IsCovered(period, ctx) && AllSettled(lines, ctx)
    ensures !HasCause(code, lines, ctx, period)
  {
    hide ExactlyTheRuns, IsSetAside, IsShared, IsCovered;
  }
}
