// From the text of an export to the verdict: study-1/src/billing-amendment/cur-export.ts and the
// export's way through billing-import.ts. How a cell spells an instant is a parameter.
module BillingImports {
  import opened Wrappers
  import opened CsvGrammar
  import opened CsvReading
  import opened CurCsv
  import opened MoneyDecimals
  import opened Decimals
  import opened LineAttribution
  import opened BilledCostCheck

  datatype ImportProblem = ExportRefused(problem: ExportProblem) | PeriodUnreadable

  type Instants = string -> Option<int>

  const LINE_COLUMNS: seq<string> :=
    ["line_item_usage_account_id", "line_item_line_item_type", "line_item_resource_id", "line_item_product_code",
     "line_item_operation", "line_item_usage_start_date", "line_item_usage_end_date", "line_item_currency_code",
     "line_item_unblended_cost", "resource_tag_suc_run_id"]

  const PERIOD_START := "bill_billing_period_start_date"
  const PERIOD_END := "bill_billing_period_end_date"
  const INVOICE := "bill_invoice_id"

  // The last position of a name, as a map filled in order keeps it.
  function Column(columns: seq<string>, name: string): (at: Option<nat>)
    ensures at.Some? ==> at.value < |columns| && columns[at.value] == name
    ensures at.None? <==> name !in columns
  {
    if columns == [] then None
    else if columns[|columns| - 1] == name then Some(|columns| - 1)
    else Column(columns[..|columns| - 1], name)
  }

  function Cell(columns: seq<string>, row: seq<string>, name: string): string
    requires |row| == |columns| && name in columns
  {
    row[Column(columns, name).value]
  }

  predicate HasLineColumns(columns: seq<string>) {
    forall i | 0 <= i < |LINE_COLUMNS| :: LINE_COLUMNS[i] in columns
  }

  function LineOf(columns: seq<string>, row: seq<string>, index: nat, instants: Instants): CurLine
    requires |row| == |columns| && HasLineColumns(columns)
  {
    var cell := (i: nat) requires i < |LINE_COLUMNS| => Cell(columns, row, LINE_COLUMNS[i]);
    CurLine("row:" + NatText(index + 1), cell(0), cell(1), cell(2), cell(3), cell(4),
            instants(cell(5)), instants(cell(6)), cell(7), cell(8), cell(9))
  }

  function LinesOf(table: Table, instants: Instants): (lines: seq<CurLine>)
    requires Rectangular(table.columns, table.rows) && HasLineColumns(table.columns)
    ensures |lines| == |table.rows|
  {
    seq(|table.rows|, i requires 0 <= i < |table.rows| => LineOf(table.columns, table.rows[i], i, instants))
  }

  predicate IsConstant(table: Table, name: string)
    requires Rectangular(table.columns, table.rows) && name in table.columns
  {
    table.rows != [] && forall i | 0 <= i < |table.rows| ::
      Cell(table.columns, table.rows[i], name) == Cell(table.columns, table.rows[0], name)
  }

  predicate IsFinal(table: Table)
    requires Rectangular(table.columns, table.rows)
  {
    INVOICE in table.columns &&
    forall i | 0 <= i < |table.rows| :: !IsBlank(Cell(table.columns, table.rows[i], INVOICE))
  }

  // The one period every record names, if its ends can be read and follow each other.
  function ReadPeriod(table: Table, instants: Instants): Option<Period>
    requires Rectangular(table.columns, table.rows)
  {
    if PERIOD_START !in table.columns || PERIOD_END !in table.columns then None
    else if !IsConstant(table, PERIOD_START) || !IsConstant(table, PERIOD_END) then None
    else
      var start := instants(Cell(table.columns, table.rows[0], PERIOD_START));
      var end := instants(Cell(table.columns, table.rows[0], PERIOD_END));
      if start.None? || end.None? || end.value <= start.value then None
      else Some(Period(start.value, end.value, IsFinal(table)))
  }

  // An export without the line columns attributes nothing and is left unverified.
  function ImportTable(table: Table, instants: Instants, ctx: Context, ceiling: string)
    : Result<Assessment, ImportProblem>
    requires Rectangular(table.columns, table.rows) && IsMoneyDecimal(ceiling)
  {
    var period := ReadPeriod(table, instants);
    if period.None? then Err(PeriodUnreadable)
    else if !HasLineColumns(table.columns) then
      SumIsExact([]);
      var reasons := [INCOMPLETE_ATTRIBUTION] + PeriodReasons(period.value, ctx.window);
      Ok(DeriveCheck(Attribution(ctx.window, [], [], reasons), ceiling))
    else Ok(Assess(LinesOf(table, instants), ctx, period.value, ceiling))
  }

  lemma MissingColumnsLeaveUnverified(table: Table, instants: Instants, ctx: Context, ceiling: string)
    requires Rectangular(table.columns, table.rows) && IsMoneyDecimal(ceiling) && !HasLineColumns(table.columns)
    requires ReadPeriod(table, instants).Some?
    ensures ImportTable(table, instants, ctx, ceiling).value.Unverified?
  {
    hide SumMoney, CompareMoney, IsMoneyDecimal, ReadPeriod, HasLineColumns, PeriodReasons, Sorted;
    var reasons := [INCOMPLETE_ATTRIBUTION] + PeriodReasons(ReadPeriod(table, instants).value, ctx.window);
    SortedKeeps(reasons + CurrencyReasons([]));
  }

  // What a verified import says of the export's own rows: the total is what the rows that are exactly
  // the run's cost; every row that may be run usage, and is not rightly set aside, is one of them, in
  // dollars; and all rows carry an invoice for one period that covers the window.
  ghost predicate IsExact(table: Table, instants: Instants, ctx: Context, ceiling: string, verdict: Assessment)
    requires IsMoneyDecimal(ceiling)
  {
    && Rectangular(table.columns, table.rows) && HasLineColumns(table.columns) && !verdict.Unverified?
    && var lines := LinesOf(table, instants);
       && IsMoneyDecimal(verdict.total) && ValueOf(verdict.total) == RunCost(lines, ctx)
       && (verdict.WithinLimit? <==> RunCost(lines, ctx) <= ValueOf(ceiling))
       && (forall i | 0 <= i < |lines| && MayBeRunUsage(lines[i], ctx) && !RightlySetAside(lines[i], ctx) ::
             Counted(lines[i], lines, ctx))
       && IsFinal(table) && CoversWindow(table, instants, ctx)
  }

  ghost predicate CoversWindow(table: Table, instants: Instants, ctx: Context)
    requires Rectangular(table.columns, table.rows)
  {
    && PERIOD_START in table.columns && PERIOD_END in table.columns
    && forall i | 0 <= i < |table.rows| ::
         var start := Cell(table.columns, table.rows[i], PERIOD_START);
         var end := Cell(table.columns, table.rows[i], PERIOD_END);
         && instants(start).Some? && instants(start).value <= ctx.window.start
         && instants(end).Some? && ctx.window.end <= instants(end).value
  }

  lemma VerifiedImportIsExact(table: Table, instants: Instants, ctx: Context, ceiling: string)
    requires Rectangular(table.columns, table.rows) && IsMoneyDecimal(ceiling)
    requires var r := ImportTable(table, instants, ctx, ceiling); r.Ok? && !r.value.Unverified?
    ensures IsExact(table, instants, ctx, ceiling, ImportTable(table, instants, ctx, ceiling).value)
  {
    hide Assess, IsMoneyDecimal, ValueOf, RunCost, MayBeRunUsage, RightlySetAside, Counted, DeriveCheck, IsFinal,
         LineOf;
    if !HasLineColumns(table.columns) {
      MissingColumnsLeaveUnverified(table, instants, ctx, ceiling);
    } else {
      var lines, period := LinesOf(table, instants), ReadPeriod(table, instants).value;
      VerdictIsExact(lines, ctx, period, ceiling);
      forall i | 0 <= i < |lines| && MayBeRunUsage(lines[i], ctx) && !RightlySetAside(lines[i], ctx)
        ensures Counted(lines[i], lines, ctx)
      {
        NoRunUsageLeftOut(lines, ctx, period, ceiling, lines[i]);
      }
    }
  }

  // The export can be verified: every line column is there, the one period is final and covers the
  // window, and every row is the run's and in dollars, or set aside for what it says itself.
  ghost predicate IsVerifiable(table: Table, instants: Instants, ctx: Context) {
    && Rectangular(table.columns, table.rows) && HasLineColumns(table.columns)
    && ReadPeriod(table, instants).Some? && IsCovered(ReadPeriod(table, instants).value, ctx)
    && AllSettled(LinesOf(table, instants), ctx)
  }

  lemma VerifiedImportExactly(table: Table, instants: Instants, ctx: Context, ceiling: string)
    requires Rectangular(table.columns, table.rows) && IsMoneyDecimal(ceiling)
    ensures var r := ImportTable(table, instants, ctx, ceiling);
      (r.Ok? && !r.value.Unverified?) <==> IsVerifiable(table, instants, ctx)
  {
    hide Assess, IsMoneyDecimal, AllSettled, IsCovered, ReadPeriod, LinesOf, DeriveCheck;
    if ReadPeriod(table, instants).Some? {
      if HasLineColumns(table.columns) {
        VerifiedExactly(LinesOf(table, instants), ctx, ReadPeriod(table, instants).value, ceiling);
      } else {
        MissingColumnsLeaveUnverified(table, instants, ctx, ceiling);
      }
    }
  }

  // A cell is where the row crosses the column of that name.
  lemma CellExactly(columns: seq<string>, row: seq<string>, name: string, at: nat)
    requires |row| == |columns| && NamedOnce(columns) && at < |columns| && columns[at] == name
    ensures Cell(columns, row, name) == row[at]
  {
    var found := Column(columns, name).value;
    assert columns[found] == columns[at];
  }

  // Each line is named after its row, counted from 1, and holds the row's cells under their columns.
  lemma LinesExactly(table: Table, instants: Instants, i: nat)
    requires Rectangular(table.columns, table.rows) && HasLineColumns(table.columns) && i < |table.rows|
    ensures "line_item_usage_account_id" in table.columns && "line_item_line_item_type" in table.columns
    ensures "line_item_resource_id" in table.columns && "line_item_product_code" in table.columns
    ensures "line_item_operation" in table.columns && "line_item_usage_start_date" in table.columns
    ensures "line_item_usage_end_date" in table.columns && "line_item_currency_code" in table.columns
    ensures "line_item_unblended_cost" in table.columns && "resource_tag_suc_run_id" in table.columns
    ensures var line, columns, row := LinesOf(table, instants)[i], table.columns, table.rows[i];
      && line.lineId == "row:" + NatText(i + 1)
      && line.usageAccountId == Cell(columns, row, "line_item_usage_account_id")
      && line.lineItemType == Cell(columns, row, "line_item_line_item_type")
      && line.resourceId == Cell(columns, row, "line_item_resource_id")
      && line.productCode == Cell(columns, row, "line_item_product_code")
      && line.operation == Cell(columns, row, "line_item_operation")
      && line.usageStart == instants(Cell(columns, row, "line_item_usage_start_date"))
      && line.usageEnd == instants(Cell(columns, row, "line_item_usage_end_date"))
      && line.currency == Cell(columns, row, "line_item_currency_code")
      && line.cost == Cell(columns, row, "line_item_unblended_cost")
      && line.runTag == Cell(columns, row, "resource_tag_suc_run_id")
  {
    hide Cell, NatText;
    assert LINE_COLUMNS[0] in table.columns && LINE_COLUMNS[1] in table.columns && LINE_COLUMNS[2] in table.columns;
    assert LINE_COLUMNS[3] in table.columns && LINE_COLUMNS[4] in table.columns && LINE_COLUMNS[5] in table.columns;
    assert LINE_COLUMNS[6] in table.columns && LINE_COLUMNS[7] in table.columns && LINE_COLUMNS[8] in table.columns;
    assert LINE_COLUMNS[9] in table.columns;
  }

  // A period is read exactly when there is a record and every record names the same two instants, the
  // end after the start; it is final exactly when every record has an invoice.
  lemma PeriodExactly(table: Table, instants: Instants, period: Period)
    requires Rectangular(table.columns, table.rows)
    ensures ReadPeriod(table, instants) == Some(period) <==>
      && table.rows != []
      && "bill_billing_period_start_date" in table.columns && "bill_billing_period_end_date" in table.columns
      && (forall row | row in table.rows :: NamesPeriod(table.columns, row, instants, period))
      && (forall row, other | row in table.rows && other in table.rows ::
            SamePeriod(table.columns, row, other))
      && (period.final <==> forall row | row in table.rows :: HasInvoice(table.columns, row))
  {
    hide Cell, IsBlank, IsFinal, HasInvoice, IsConstant;
    if table.rows != [] {
      assert table.rows[0] in table.rows;
      FinalExactly(table);
      if PERIOD_START in table.columns && PERIOD_END in table.columns {
        ConstantExactly(table, PERIOD_START);
        ConstantExactly(table, PERIOD_END);
        var first := table.rows[0];
        if IsConstant(table, PERIOD_START) && IsConstant(table, PERIOD_END) {
          assert forall row | row in table.rows :: SamePeriod(table.columns, row, first);
        }
        if forall row, other | row in table.rows && other in table.rows :: SamePeriod(table.columns, row, other) {
          assert forall row | row in table.rows :: SamePeriod(table.columns, row, first);
        }
      }
    } else if PERIOD_START in table.columns {
      ConstantExactly(table, PERIOD_START);
    }
  }

  predicate HasInvoice(columns: seq<string>, row: seq<string>) {
    |row| == |columns| && "bill_invoice_id" in columns && !IsBlank(Cell(columns, row, "bill_invoice_id"))
  }

  lemma FinalExactly(table: Table)
    requires Rectangular(table.columns, table.rows) && table.rows != []
    ensures IsFinal(table) <==> forall row | row in table.rows :: HasInvoice(table.columns, row)
  {
    hide IsBlank, Cell;
    assert table.rows[0] in table.rows;
    if forall row | row in table.rows :: HasInvoice(table.columns, row) {
      forall i | 0 <= i < |table.rows|
        ensures HasInvoice(table.columns, table.rows[i])
      {
        assert table.rows[i] in table.rows;
      }
    }
  }

  lemma ConstantExactly(table: Table, name: string)
    requires Rectangular(table.columns, table.rows) && name in table.columns
    ensures IsConstant(table, name) <==>
              table.rows != [] && forall row | row in table.rows ::
                |row| == |table.columns| && Cell(table.columns, row, name) == Cell(table.columns, table.rows[0], name)
  {
    hide Cell;
    forall i | 0 <= i < |table.rows|
      ensures table.rows[i] in table.rows
    {
    }
  }

  // The row's period, by its two cells.
  predicate NamesPeriod(columns: seq<string>, row: seq<string>, instants: Instants, period: Period) {
    && |row| == |columns| && PERIOD_START in columns && PERIOD_END in columns
    && instants(Cell(columns, row, PERIOD_START)) == Some(period.start)
    && instants(Cell(columns, row, PERIOD_END)) == Some(period.end) && period.start < period.end
  }

  predicate SamePeriod(columns: seq<string>, row: seq<string>, other: seq<string>) {
    && |row| == |other| == |columns| && PERIOD_START in columns && PERIOD_END in columns
    && Cell(columns, row, PERIOD_START) == Cell(columns, other, PERIOD_START)
    && Cell(columns, row, PERIOD_END) == Cell(columns, other, PERIOD_END)
  }

  ghost predicate IsTableOf(text: string, table: Table) {
    && NamedOnce(table.columns) && Rectangular(table.columns, table.rows)
    && Renders(WithoutMark(text), [table.columns] + table.rows)
  }

  // A text renders at most one table.
  lemma OneTable(text: string, table: Table, other: Table)
    requires IsTableOf(text, table) && IsTableOf(text, other)
    ensures table == other
  {
    hide Renders, Read;
    var records, others := [table.columns] + table.rows, [other.columns] + other.rows;
    ReaderIsTheGrammar(WithoutMark(text), records);
    ReaderIsTheGrammar(WithoutMark(text), others);
    assert records[1..] == table.rows && others[1..] == other.rows;
  }

  // The decoded export's text decides: it is imported exactly as the table it renders, refused when it
  // renders none, verified exactly when that table can be, and then exact about the rows it renders.
  method ImportText(text: string, instants: Instants, ctx: Context, ceiling: string)
    returns (r: Result<Assessment, ImportProblem>)
    requires IsMoneyDecimal(ceiling)
    ensures forall table | IsTableOf(text, table) :: r == ImportTable(table, instants, ctx, ceiling)
    ensures (r.Err? && r.error.ExportRefused?) <==> !exists table :: IsTableOf(text, table)
    ensures r.Ok? && !r.value.Unverified? ==>
              exists table :: IsTableOf(text, table) && IsExact(table, instants, ctx, ceiling, r.value)
    ensures (r.Ok? && !r.value.Unverified?) <==>
        exists table :: IsTableOf(text, table) && IsVerifiable(table, instants, ctx)
  {
    hide ImportTable, IsExact, IsMoneyDecimal, Renders, NamedOnce, IsVerifiable;
    var parsed := ParseCurText(text);
    if parsed.Err? {
      return Err(ExportRefused(parsed.error));
    }
    var table := parsed.value;
    assert IsTableOf(text, table);
    r := ImportTable(table, instants, ctx, ceiling);
    NeverRefused(table, instants, ctx, ceiling);
    VerifiedImportExactly(table, instants, ctx, ceiling);
    forall other | IsTableOf(text, other)
      ensures other == table
    {
      OneTable(text, table, other);
    }
    if r.Ok? && !r.value.Unverified? {
      VerifiedImportIsExact(table, instants, ctx, ceiling);
    }
  }

  lemma NeverRefused(table: Table, instants: Instants, ctx: Context, ceiling: string)
    requires Rectangular(table.columns, table.rows) && IsMoneyDecimal(ceiling)
    ensures var r := ImportTable(table, instants, ctx, ceiling); r.Err? ==> r.error.PeriodUnreadable?
  {
    hide Assess, DeriveCheck, IsMoneyDecimal, ReadPeriod;
  }
}
