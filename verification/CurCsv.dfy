// The billing export reader of study-1/src/billing-amendment/cur-csv.ts, from decoded text to table.

// The format on its own terms (section 2 of RFC 4180, with LF line ends besides CRLF): a text is a
// row of cells, each a field, how it is written and what ends it.
module CsvGrammar {
  const QUOTE: char := '\"'
  const COMMA: char := ','
  const CR: char := '\r'
  const LF: char := '\n'

  datatype Form = Plain | Quoted
  datatype Ending = Comma | CrLf | Lf | EndOfText
  datatype Cell = Cell(field: string, form: Form, ending: Ending)

  predicate IsSpecial(c: char) {
    c == QUOTE || c == COMMA || c == CR || c == LF
  }

  predicate IsPlain(field: string) {
    forall i | 0 <= i < |field| :: !IsSpecial(field[i])
  }

  function Doubled(field: string): string {
    if field == "" then ""
    else (if field[0] == QUOTE then [QUOTE, QUOTE] else [field[0]]) + Doubled(field[1..])
  }

  function FieldText(field: string, form: Form): string {
    if form == Plain then field else [QUOTE] + Doubled(field) + [QUOTE]
  }

  function EndingText(ending: Ending): string {
    match ending
    case Comma => [COMMA]
    case CrLf => [CR, LF]
    case Lf => [LF]
    case EndOfText => ""
  }

  function Text(cells: seq<Cell>): string {
    if cells == [] then ""
    else FieldText(cells[0].field, cells[0].form) + EndingText(cells[0].ending) + Text(cells[1..])
  }

  // Whether the cells are a legal rest of a text, at the start of a record or inside one. Only plain
  // fields without special characters go unquoted, a comma promises another field, and the end of the
  // text closes a record only if that record wrote something.
  predicate Legal(cells: seq<Cell>, atStart: bool) {
    if cells == [] then atStart
    else
      var cell := cells[0];
      && (cell.form == Plain ==> IsPlain(cell.field))
      && match cell.ending
         case Comma => Legal(cells[1..], false)
         case CrLf => Legal(cells[1..], true)
         case Lf => Legal(cells[1..], true)
         case EndOfText => cells[1..] == [] && !(atStart && cell.form == Plain && cell.field == "")
  }

  // The records of the cells, when `record` holds the fields of the current one so far.
  function RecordsOf(cells: seq<Cell>, record: seq<string>): seq<seq<string>> {
    if cells == [] then []
    else if cells[0].ending == Comma then RecordsOf(cells[1..], record + [cells[0].field])
    else [record + [cells[0].field]] + RecordsOf(cells[1..], [])
  }

  ghost predicate Renders(text: string, records: seq<seq<string>>) {
    exists cells :: Legal(cells, true) && Text(cells) == text && RecordsOf(cells, []) == records
  }
}

// The reader as one function of the rest of the text, and the proof that it is the grammar's inverse.
module CsvReading {
  import opened Wrappers
  import opened CsvGrammar

  datatype Problem = QuoteInsidePlainField | QuoteNeverClosed | UnexpectedCharacter

  predicate IsSeparator(c: char) {
    c == COMMA || c == LF || c == CR
  }

  // Length of the field at the start of the text up to its separator, its first quote or the end.
  function PlainLength(rest: string): (n: nat)
    ensures n <= |rest|
    ensures IsPlain(rest[..n])
    ensures n < |rest| ==> IsSpecial(rest[n])
  {
    if rest == "" || IsSpecial(rest[0]) then 0 else 1 + PlainLength(rest[1..])
  }

  // A field and how many characters it took.
  type Scan = Result<(string, nat), Problem>

  function Prefixed(part: string, taken: nat, scan: Scan): Scan {
    match scan
    case Ok((field, n)) => Ok((part + field, taken + n))
    case Err(problem) => Err(problem)
  }

  // The field whose opening quote has been read, through its closing quote.
  function ScanQuoted(rest: string): (scan: Scan)
    ensures scan.Ok? ==> 1 <= scan.value.1 <= |rest|
  {
    if rest == "" then Err(QuoteNeverClosed)
    else if rest[0] != QUOTE then Prefixed([rest[0]], 1, ScanQuoted(rest[1..]))
    else if |rest| > 1 && rest[1] == QUOTE then Prefixed([QUOTE], 2, ScanQuoted(rest[2..]))
    else Ok(("", 1))
  }

  function ScanField(rest: string): (scan: Scan)
    requires rest != ""
    ensures scan.Ok? ==> scan.value.1 <= |rest|
  {
    if rest[0] == QUOTE then
      match ScanQuoted(rest[1..])
      case Ok((field, n)) => Ok((field, n + 1))
      case Err(problem) => Err(problem)
    else
      var n := PlainLength(rest);
      if n < |rest| && rest[n] == QUOTE then Err(QuoteInsidePlainField) else Ok((rest[..n], n))
  }

  function TerminatorLength(rest: string): nat
    requires rest != ""
  {
    if rest[0] == LF then 1 else if rest[0] == CR && |rest| > 1 && rest[1] == LF then 2 else 0
  }

  type Reading = Result<seq<seq<string>>, Problem>

  function Before(records: seq<seq<string>>, reading: Reading): Reading {
    match reading
    case Ok(later) => Ok(records + later)
    case Err(problem) => Err(problem)
  }

  // The records of the rest of the text, `record` being the fields of the current one so far.
  function Read(rest: string, record: seq<string>): Reading
    decreases |rest|, 1
  {
    if rest == "" then Ok([])
    else match ScanField(rest)
      case Err(problem) => Err(problem)
      case Ok((field, n)) => ReadAfter(rest[n..], record + [field])
  }

  // The same after the last field of `record` was read: a comma continues the record, a line end or
  // the end of the text closes it.
  function ReadAfter(after: string, record: seq<string>): Reading
    decreases |after|, 0
  {
    if after == "" then Ok([record])
    else if after[0] == COMMA then
      if |after| == 1 then Ok([record + [""]]) else Read(after[1..], record)
    else
      var terminator := TerminatorLength(after);
      if terminator == 0 then Err(UnexpectedCharacter) else Before([record], Read(after[terminator..], []))
  }

  // ---------- a written field is read back ----------

  predicate EndsField(rest: string) {
    rest == "" || IsSeparator(rest[0])
  }

  lemma {:induction false} PlainIsScanned(field: string, rest: string)
    requires IsPlain(field) && EndsField(rest)
    ensures PlainLength(field + rest) == |field|
  {
    if field == "" {
      assert field + rest == rest;
    } else {
      PlainIsScanned(field[1..], rest);
      assert (field + rest)[1..] == field[1..] + rest;
    }
  }

  lemma ScanPair(tail: string)
    ensures ScanQuoted([QUOTE, QUOTE] + tail) == Prefixed([QUOTE], 2, ScanQuoted(tail))
  {
    assert ([QUOTE, QUOTE] + tail)[2..] == tail;
  }

  lemma ScanOther(c: char, tail: string)
    requires c != QUOTE
    ensures ScanQuoted([c] + tail) == Prefixed([c], 1, ScanQuoted(tail))
  {
    assert ([c] + tail)[1..] == tail;
  }

  lemma ScanClose(rest: string)
    requires EndsField(rest)
    ensures ScanQuoted([QUOTE] + rest) == Ok(("", 1))
  {
  }

  lemma {:induction false} QuotedIsScanned(field: string, rest: string)
    requires EndsField(rest)
    ensures ScanQuoted(Doubled(field) + [QUOTE] + rest) == Ok((field, |Doubled(field)| + 1))
  {
    hide ScanQuoted, EndsField;
    var text := Doubled(field) + [QUOTE] + rest;
    if field == "" {
      ScanClose(rest);
      assert text == [QUOTE] + rest;
    } else {
      QuotedIsScanned(field[1..], rest);
      var tail := Doubled(field[1..]) + [QUOTE] + rest;
      assert [field[0]] + field[1..] == field;
      if field[0] == QUOTE {
        ScanPair(tail);
        assert text == [QUOTE, QUOTE] + tail;
      } else {
        ScanOther(field[0], tail);
        assert text == [field[0]] + tail;
      }
    }
  }

  lemma WrittenPlainIsScanned(field: string, rest: string)
    requires IsPlain(field) && EndsField(rest) && field + rest != ""
    ensures ScanField(field + rest) == Ok((field, |field|))
  {
    PlainIsScanned(field, rest);
    assert (field + rest)[..|field|] == field;
    assert field != "" ==> (field + rest)[0] == field[0];
  }

  lemma WrittenQuotedIsScanned(field: string, rest: string)
    requires EndsField(rest)
    ensures ScanField(FieldText(field, Quoted) + rest) == Ok((field, |FieldText(field, Quoted)|))
  {
    QuotedIsScanned(field, rest);
    assert (FieldText(field, Quoted) + rest)[1..] == Doubled(field) + [QUOTE] + rest;
  }

  // ---------- every rendering is read back ----------

  lemma {:induction false} TextOfCellsStarts(cells: seq<Cell>, atStart: bool)
    requires Legal(cells, atStart) && cells != []
    ensures Text(cells) == "" ==>
              !atStart && cells[0].form == Plain && cells[0].field == "" && cells[0].ending == EndOfText
  {
  }

  // Reading one written cell: its field joins the record, and its ending says what follows.
  lemma CellIsRead(cell: Cell, later: string, record: seq<string>)
    requires cell.form == Plain ==> IsPlain(cell.field)
    requires cell.ending == EndOfText ==> later == "" && FieldText(cell.field, cell.form) != ""
    ensures var text := FieldText(cell.field, cell.form) + EndingText(cell.ending) + later;
            Read(text, record) ==
              match cell.ending
              case Comma =>
                if later == "" then Ok([record + [cell.field] + [""]]) else Read(later, record + [cell.field])
              case EndOfText => Ok([record + [cell.field]])
              case _ => Before([record + [cell.field]], Read(later, []))
  {
    var written := FieldText(cell.field, cell.form);
    var after := EndingText(cell.ending) + later;
    var text := written + EndingText(cell.ending) + later;
    assert text == written + after;
    if cell.form == Plain {
      WrittenPlainIsScanned(cell.field, after);
    } else {
      WrittenQuotedIsScanned(cell.field, after);
    }
    assert text[|written|..] == after;
    assert after[|EndingText(cell.ending)|..] == later;
  }

  lemma {:induction false} RenderingIsRead(cells: seq<Cell>, record: seq<string>)
    requires Legal(cells, record == [])
    requires Text(cells) != "" || cells == []
    ensures Read(Text(cells), record) == Ok(RecordsOf(cells, record))
    decreases |cells|
  {
    if cells != [] {
      var cell := cells[0];
      var later := cells[1..];
      CellIsRead(cell, Text(later), record);
      if cell.ending == Comma {
        assert record + [cell.field] != [];
        TextOfCellsStarts(later, false);
        if Text(later) != "" {
          RenderingIsRead(later, record + [cell.field]);
        } else {
          LastEmptyField(later, record + [cell.field]);
        }
      } else if cell.ending != EndOfText {
        if later != [] {
          TextOfCellsStarts(later, true);
        }
        RenderingIsRead(later, []);
      } else {
        assert later == [] && RecordsOf(later, []) == [];
        assert [record + [cell.field]] + [] == [record + [cell.field]];
      }
    }
  }

  lemma LastEmptyField(cells: seq<Cell>, record: seq<string>)
    requires cells != [] && Legal(cells, false) && Text(cells) == ""
    ensures RecordsOf(cells, record) == [record + [""]]
  {
    TextOfCellsStarts(cells, false);
  }

  // ---------- everything read is a rendering ----------

  lemma OneMoreWritten(rest: string, k: nat, m: nat, later: string)
    requires k + m <= |rest| && rest[k..][..m] == Doubled(later) + [QUOTE]
    requires if k == 2 then rest[0] == QUOTE && rest[1] == QUOTE else k == 1 && rest[0] != QUOTE
    ensures rest[..k + m] == Doubled([rest[0]] + later) + [QUOTE]
  {
    var field := [rest[0]] + later;
    assert field[1..] == later;
    assert rest[..k + m] == rest[..k] + rest[k..][..m];
    assert rest[..k] == if k == 2 then [QUOTE, QUOTE] else [rest[0]];
  }

  lemma {:induction false} ScannedQuotedWasWritten(rest: string)
    requires ScanQuoted(rest).Ok?
    ensures var (field, n) := ScanQuoted(rest).value;
            rest[..n] == Doubled(field) + [QUOTE]
  {
    var (field, n) := ScanQuoted(rest).value;
    if rest[0] == QUOTE && !(|rest| > 1 && rest[1] == QUOTE) {
      assert rest[..1] == [QUOTE];
    } else {
      var k := if rest[0] == QUOTE then 2 else 1;
      var (later, m) := ScanQuoted(rest[k..]).value;
      ScannedQuotedWasWritten(rest[k..]);
      assert n == k + m && field == [rest[0]] + later;
      OneMoreWritten(rest, k, m, later);
    }
  }

  lemma ScannedFieldWasWritten(rest: string) returns (form: Form)
    requires rest != "" && ScanField(rest).Ok?
    ensures var (field, n) := ScanField(rest).value;
            && rest[..n] == FieldText(field, form)
            && (form == Plain ==> IsPlain(field))
            && (n == 0 ==> form == Plain)
  {
    if rest[0] == QUOTE {
      form := Quoted;
      ScannedQuotedWasWritten(rest[1..]);
      var (field, n) := ScanField(rest).value;
      assert rest[..n] == [QUOTE] + rest[1..][..n - 1];
    } else {
      form := Plain;
    }
  }

  // What the reader took first was one written cell, and it goes on after it.
  lemma ReadTookCell(rest: string, record: seq<string>) returns (cell: Cell, later: string)
    requires rest != "" && Read(rest, record).Ok?
    ensures rest == FieldText(cell.field, cell.form) + EndingText(cell.ending) + later
    ensures cell.form == Plain ==> IsPlain(cell.field)
    ensures match cell.ending
            case Comma => Read(rest, record) == if later == "" then Ok([record + [cell.field] + [""]])
                                                else Read(later, record + [cell.field])
            case EndOfText => later == "" && Read(rest, record) == Ok([record + [cell.field]])
            case _ => Read(rest, record) == Before([record + [cell.field]], Read(later, []))
  {
    var form := ScannedFieldWasWritten(rest);
    var (field, n) := ScanField(rest).value;
    var ending;
    ending, later := ReadTookEnding(rest[n..], record + [field]);
    cell := Cell(field, form, ending);
    assert Read(rest, record) == ReadAfter(rest[n..], record + [field]);
    Joined(rest, n, EndingText(ending), later);
  }

  lemma Joined(rest: string, n: nat, ending: string, later: string)
    requires n <= |rest| && rest[n..] == ending + later
    ensures rest == rest[..n] + ending + later
  {
  }

  lemma ReadTookEnding(after: string, record: seq<string>) returns (ending: Ending, later: string)
    requires ReadAfter(after, record).Ok?
    ensures after == EndingText(ending) + later
    ensures match ending
            case Comma => ReadAfter(after, record) == if later == "" then Ok([record + [""]]) else Read(later, record)
            case EndOfText => later == "" && ReadAfter(after, record) == Ok([record])
            case _ => ReadAfter(after, record) == Before([record], Read(later, []))
  {
    ending := if after == "" then EndOfText
              else if after[0] == COMMA then Comma else if after[0] == LF then Lf else CrLf;
    later := after[|EndingText(ending)|..];
  }

  lemma {:induction false} ReadIsRendering(rest: string, record: seq<string>) returns (cells: seq<Cell>)
    requires rest != "" || record == []
    requires Read(rest, record).Ok?
    ensures Legal(cells, record == [])
    ensures Text(cells) == rest
    ensures RecordsOf(cells, record) == Read(rest, record).value
    decreases |rest|
  {
    if rest == "" {
      return [];
    }
    var cell, later := ReadTookCell(rest, record);
    if cell.ending == EndOfText {
      LoneCell(cell);
      return [cell];
    }
    if cell.ending == Comma && later == "" {
      var last := Cell("", Plain, EndOfText);
      LoneCell(last);
      FirstCell(cell, [last], record);
      return [cell] + [last];
    }
    var next := if cell.ending == Comma then record + [cell.field] else [];
    var others := ReadIsRendering(later, next);
    FirstCell(cell, others, record);
    cells := [cell] + others;
  }

  lemma LoneCell(cell: Cell)
    ensures Text([cell]) == FieldText(cell.field, cell.form) + EndingText(cell.ending)
    ensures forall record :: cell.ending != Comma ==> RecordsOf([cell], record) == [record + [cell.field]]
  {
    assert [cell][1..] == [] && Text([cell][1..]) == "";
  }

  lemma FirstCell(cell: Cell, later: seq<Cell>, record: seq<string>)
    ensures var cells := [cell] + later;
            && cells[1..] == later
            && Text(cells) == FieldText(cell.field, cell.form) + EndingText(cell.ending) + Text(later)
            && RecordsOf(cells, record) == if cell.ending == Comma then RecordsOf(later, record + [cell.field])
                                           else [record + [cell.field]] + RecordsOf(later, [])
  {
    assert ([cell] + later)[1..] == later;
  }

  // The reader accepts a text with exactly the records it renders, and refuses every other text.
  lemma ReaderIsTheGrammar(text: string, records: seq<seq<string>>)
    ensures Read(text, []) == Ok(records) <==> Renders(text, records)
  {
    if Read(text, []) == Ok(records) {
      var cells := ReadIsRendering(text, []);
    }
    if Renders(text, records) {
      var cells :| Legal(cells, true) && Text(cells) == text && RecordsOf(cells, []) == records;
      if cells != [] {
        TextOfCellsStarts(cells, true);
      }
      RenderingIsRead(cells, []);
    }
  }

  // ---------- printing ----------

  function CellsOf(record: seq<string>): seq<Cell> {
    if |record| <= 1 then if record == [] then [] else [Cell(record[0], Quoted, CrLf)]
    else [Cell(record[0], Quoted, Comma)] + CellsOf(record[1..])
  }

  // Every record written with quoted fields and CRLF.
  function Printed(records: seq<seq<string>>): seq<Cell> {
    if records == [] then [] else CellsOf(records[0]) + Printed(records[1..])
  }

  predicate HaveFields(records: seq<seq<string>>) {
    forall i | 0 <= i < |records| :: records[i] != []
  }

  lemma {:induction false} CellsOfReadBack(record: seq<string>, done: seq<string>, later: seq<Cell>)
    requires record != [] && Legal(later, true)
    ensures Legal(CellsOf(record) + later, done == [])
    ensures RecordsOf(CellsOf(record) + later, done) == [done + record] + RecordsOf(later, [])
    decreases |record|
  {
    var cells := CellsOf(record) + later;
    if |record| == 1 {
      assert cells[1..] == later;
      assert record == [record[0]];
    } else {
      assert cells[1..] == CellsOf(record[1..]) + later;
      CellsOfReadBack(record[1..], done + [record[0]], later);
      assert done + [record[0]] + record[1..] == done + record;
    }
  }

  lemma {:induction false} PrintedIsLegal(records: seq<seq<string>>)
    requires HaveFields(records)
    ensures Legal(Printed(records), true) && RecordsOf(Printed(records), []) == records
  {
    if records != [] {
      PrintedIsLegal(records[1..]);
      CellsOfReadBack(records[0], [], Printed(records[1..]));
      assert [] + records[0] == records[0];
    }
  }

  // Printing any records (each has a field) and reading the text returns them.
  lemma PrintedRecordsAreRead(records: seq<seq<string>>)
    requires HaveFields(records)
    ensures Read(Text(Printed(records)), []) == Ok(records)
  {
    PrintedIsLegal(records);
    ReaderIsTheGrammar(Text(Printed(records)), records);
  }
}

// The single-pass reader over a mutable cursor, and the table it feeds.
module CurCsv {
  import opened Wrappers
  import opened CsvGrammar
  import opened CsvReading

  const BYTE_ORDER_MARK: char := '\U{FEFF}'

  // A plain scan that has passed `k` characters without finding a special one.
  lemma {:induction false} PlainLengthSkips(rest: string, k: nat)
    requires k <= |rest| && IsPlain(rest[..k])
    ensures PlainLength(rest) == k + PlainLength(rest[k..])
  {
    if k > 0 {
      assert rest[..k][0] == rest[0];
      assert IsPlain(rest[1..][..k - 1]) by {
        assert rest[1..][..k - 1] == rest[..k][1..];
      }
      PlainLengthSkips(rest[1..], k - 1);
      assert rest[1..][k - 1..] == rest[k..];
    }
  }

  // A quoted scan may take any stretch without quotes at once.
  lemma {:induction false} QuotedScanSkips(rest: string, k: nat)
    requires k <= |rest| && forall i | 0 <= i < k :: rest[i] != QUOTE
    ensures ScanQuoted(rest) == Prefixed(rest[..k], k, ScanQuoted(rest[k..]))
  {
    if k == 0 {
      assert rest[0..] == rest && rest[..0] == "";
      if ScanQuoted(rest).Ok? {
        assert "" + ScanQuoted(rest).value.0 == ScanQuoted(rest).value.0;
      }
    } else {
      QuotedScanSkips(rest[1..], k - 1);
      assert rest[1..][k - 1..] == rest[k..];
      assert [rest[0]] + rest[1..][..k - 1] == rest[..k];
      if ScanQuoted(rest[k..]).Ok? {
        var field := ScanQuoted(rest[k..]).value.0;
        assert [rest[0]] + (rest[1..][..k - 1] + field) == rest[..k] + field;
      }
    }
  }

  // Two stretches of one scan are one stretch.
  lemma PrefixedTwice(a: string, n: nat, b: string, m: nat, scan: Scan)
    ensures Prefixed(a, n, Prefixed(b, m, scan)) == Prefixed(a + b, n + m, scan)
  {
    if scan.Ok? {
      assert a + (b + scan.value.0) == a + b + scan.value.0;
    }
  }

  lemma PlainFieldEnds(text: string, start: nat, index: nat)
    requires start <= index <= |text| && start < |text| && text[start] != QUOTE && IsPlain(text[start..index])
    requires index == |text| || IsSpecial(text[index])
    ensures ScanField(text[start..]) ==
              if index < |text| && text[index] == QUOTE then Err(QuoteInsidePlainField)
              else Ok((text[start..index], index - start))
  {
    var rest := text[start..];
    assert rest[..index - start] == text[start..index] && rest[index - start..] == text[index..];
    PlainLengthSkips(rest, index - start);
  }

  lemma QuotedFieldNeverEnds(text: string, start: nat)
    requires start <= |text| && forall i | start <= i < |text| :: text[i] != QUOTE
    ensures ScanQuoted(text[start..]) == Err(QuoteNeverClosed)
  {
    QuotedScanSkips(text[start..], |text| - start);
  }

  // A quoted field up to its next quote, which closes it unless it is doubled.
  lemma QuotedFieldReachesQuote(text: string, start: nat, close: nat)
    requires start <= close < |text| && text[close] == QUOTE && forall i | start <= i < close :: text[i] != QUOTE
    ensures ScanQuoted(text[start..]) ==
              if close + 1 < |text| && text[close + 1] == QUOTE
              then Prefixed(text[start..close] + [QUOTE], close + 2 - start, ScanQuoted(text[close + 2..]))
              else Ok((text[start..close], close + 1 - start))
  {
    var rest := text[start..];
    var k := close - start;
    assert rest[..k] == text[start..close] && rest[k..] == text[close..];
    QuotedScanSkips(rest, k);
    if close + 1 < |text| && text[close + 1] == QUOTE {
      assert text[close..][2..] == text[close + 2..];
      PrefixedTwice(rest[..k], k, [QUOTE], 2, ScanQuoted(text[close + 2..]));
    } else {
      assert rest[..k] + "" == rest[..k];
    }
  }

  function IndexOfQuote(text: string, start: nat): (at: Option<nat>)
    requires start <= |text|
    ensures at.None? ==> forall i | start <= i < |text| :: text[i] != QUOTE
    ensures at.Some? ==> start <= at.value < |text| && text[at.value] == QUOTE
    ensures at.Some? ==> forall i | start <= i < at.value :: text[i] != QUOTE
    decreases |text| - start
  {
    if start == |text| then None
    else if text[start] == QUOTE then Some(start)
    else IndexOfQuote(text, start + 1)
  }

  // The field from `opening` (just after its quote) and the index after its closing quote.
  method ScanToClosingQuote(text: string, opening: nat) returns (r: Result<string, Problem>, index: nat)
    requires opening <= |text|
    ensures ScanQuoted(text[opening..]) == if r.Ok? then Ok((r.value, index - opening)) else Err(r.error)
    ensures opening <= index <= |text|
  {
    hide ScanQuoted;
    var start := opening;
    var field := "";
    QuotedScanSkips(text[opening..], 0);
    while true
      invariant opening <= start <= |text|
      invariant ScanQuoted(text[opening..]) == Prefixed(field, start - opening, ScanQuoted(text[start..]))
      decreases |text| - start
    {
      var close := IndexOfQuote(text, start);
      if close.None? {
        QuotedFieldNeverEnds(text, start);
        return Err(QuoteNeverClosed), start;
      }
      QuotedFieldReachesQuote(text, start, close.value);
      var part := text[start..close.value];
      if !(close.value + 1 < |text| && text[close.value + 1] == QUOTE) {
        return Ok(field + part), close.value + 1;
      }
      PrefixedTwice(field, start - opening, part + [QUOTE], close.value + 2 - start,
                    ScanQuoted(text[close.value + 2..]));
      field := field + (part + [QUOTE]);
      start := close.value + 2;
    }
  }

  class ParseCursor {
    const text: string
    var index: nat
    var record: seq<string>
    var records: seq<seq<string>>

    ghost predicate Valid()
      reads this
    {
      index <= |text|
    }

    // What the whole text comes to, seen from here.
    ghost function Outlook(): Reading
      requires Valid()
      reads this
    {
      Before(records, if index == |text| && record == [] then Ok([]) else Read(text[index..], record))
    }

    constructor (text: string)
      ensures Valid() && this.text == text && index == 0 && record == [] && records == []
    {
      this.text, index, record, records := text, 0, [], [];
    }

    method ReadPlainField() returns (r: Result<string, Problem>)
      requires Valid() && index < |text| && text[index] != QUOTE
      modifies this`index
      ensures Valid()
      ensures ScanField(text[old(index)..]) == if r.Ok? then Ok((r.value, index - old(index))) else Err(r.error)
      ensures r.Ok? ==> index >= old(index)
    {
      var start := index;
      while index < |text| && !IsSeparator(text[index])
        invariant start <= index <= |text|
        invariant IsPlain(text[start..index])
      {
        if text[index] == QUOTE {
          PlainFieldEnds(text, start, index);
          return Err(QuoteInsidePlainField);
        }
        assert text[start..index + 1] == text[start..index] + [text[index]];
        index := index + 1;
      }
      PlainFieldEnds(text, start, index);
      return Ok(text[start..index]);
    }

    method ReadQuotedField() returns (r: Result<string, Problem>)
      requires Valid() && index < |text| && text[index] == QUOTE
      modifies this`index
      ensures Valid()
      ensures ScanField(text[old(index)..]) == if r.Ok? then Ok((r.value, index - old(index))) else Err(r.error)
      ensures r.Ok? ==> index >= old(index)
    {
      var opening := index;
      assert text[opening..][1..] == text[opening + 1..];
      r, index := ScanToClosingQuote(text, opening + 1);
    }

    method CloseRecord()
      modifies this`record, this`records
      ensures records == old(records) + [old(record)] && record == []
    {
      records := records + [record];
      record := [];
    }

    // After a field: a comma continues the record, a line end or the end of the text closes it.
    method ReadSeparator() returns (problem: Option<Problem>)
      requires Valid()
      modifies this`index, this`record, this`records
      ensures Valid() && index >= old(index)
      ensures Before(old(records), ReadAfter(text[old(index)..], old(record)))
           == if problem.None? then Outlook() else Err(problem.value)
      ensures problem.None? ==> (index == |text| ==> record == []) && (index > old(index) || index == |text|)
    {
      ghost var rest := text[index..];
      if index == |text| {
        CloseRecord();
        assert records + [] == records;
        return None;
      }
      if text[index] == COMMA {
        index := index + 1;
        assert rest[1..] == text[index..];
        if index == |text| {
          record := record + [""];
          CloseRecord();
          assert records + [] == records;
        }
        return None;
      }
      var terminator := TerminatorAt(text, index);
      if terminator == 0 {
        return Some(UnexpectedCharacter);
      }
      index := index + terminator;
      assert rest[terminator..] == text[index..];
      CloseRecord();
      ghost var later := if index == |text| then Ok([]) else Read(text[index..], []);
      assert later == Read(text[index..], []);
      if later.Ok? {
        assert old(records) + ([old(record)] + later.value) == records + later.value;
      }
      return None;
    }

    method ReadField() returns (problem: Option<Problem>)
      requires Valid() && index < |text|
      modifies this`index, this`record, this`records
      ensures Valid()
      ensures old(Outlook()) == if problem.None? then Outlook() else Err(problem.value)
      ensures problem.None? ==> index > old(index) && (index == |text| ==> record == [])
    {
      ghost var rest := text[index..];
      ghost var start := index;
      var field;
      if text[index] == QUOTE {
        field := ReadQuotedField();
      } else {
        field := ReadPlainField();
      }
      if field.Err? {
        return Some(field.error);
      }
      assert rest[index - start..] == text[index..];
      record := record + [field.value];
      ghost var scanned := index;
      problem := ReadSeparator();
    }
  }

  function TerminatorAt(text: string, index: nat): (n: nat)
    requires index < |text|
    ensures n == TerminatorLength(text[index..])
    ensures index + n <= |text|
  {
    if text[index] == LF then 1
    else if text[index] == CR && index + 1 < |text| && text[index + 1] == LF then 2
    else 0
  }

  // Reading a text succeeds with exactly the records the text renders, and fails on every text that
  // renders none.
  method ParseRecords(text: string) returns (r: Result<seq<seq<string>>, Problem>)
    ensures forall records :: r == Ok(records) <==> Renders(text, records)
  {
    var cursor := new ParseCursor(text);
    assert text[0..] == text;
    if cursor.Outlook().Ok? {
      assert [] + cursor.Outlook().value == cursor.Outlook().value;
    }
    forall records
      ensures Read(text, []) == Ok(records) <==> Renders(text, records)
    {
      ReaderIsTheGrammar(text, records);
    }
    while cursor.index < |text|
      invariant cursor.text == text && cursor.Valid()
      invariant cursor.Outlook() == Read(text, [])
      invariant cursor.index == |text| ==> cursor.record == []
      decreases |text| - cursor.index
    {
      var problem := cursor.ReadField();
      if problem.Some? {
        return Err(problem.value);
      }
    }
    assert cursor.records + [] == cursor.records;
    return Ok(cursor.records);
  }

  // ---------- the table ----------

  datatype Table = Table(columns: seq<string>, rows: seq<seq<string>>)

  datatype ExportProblem = MalformedText(problem: Problem) | EmptyExport | BlankColumn | RepeatedColumn | RowWidth

  predicate NamedOnce(header: seq<string>) {
    && (forall i | 0 <= i < |header| :: header[i] != "")
    && (forall i, j | 0 <= i < j < |header| :: header[i] != header[j])
  }

  predicate Rectangular(columns: seq<string>, rows: seq<seq<string>>) {
    forall i | 0 <= i < |rows| :: |rows[i]| == |columns|
  }

  method HeaderFailure(header: seq<string>) returns (problem: Option<ExportProblem>)
    ensures problem.None? <==> NamedOnce(header)
    ensures problem == Some(BlankColumn) <==> exists i | 0 <= i < |header| :: header[i] == ""
    ensures problem.Some? ==> problem == Some(BlankColumn) || problem == Some(RepeatedColumn)
  {
    for i := 0 to |header|
      invariant forall k | 0 <= k < i :: header[k] != ""
    {
      if header[i] == "" {
        return Some(BlankColumn);
      }
    }
    var seen: set<string> := {};
    for i := 0 to |header|
      invariant seen == set k | 0 <= k < i :: header[k]
      invariant forall k, j | 0 <= k < j < i :: header[k] != header[j]
    {
      if header[i] in seen {
        return Some(RepeatedColumn);
      }
      seen := seen + {header[i]};
    }
    return None;
  }

  method TableOf(records: seq<seq<string>>) returns (r: Result<Table, ExportProblem>)
    ensures r.Ok? <==> records != [] && NamedOnce(records[0]) && Rectangular(records[0], records[1..])
    ensures r.Ok? ==> [r.value.columns] + r.value.rows == records
    ensures r == Err(EmptyExport) <==> records == []
    ensures r == Err(RowWidth) <==>
              records != [] && NamedOnce(records[0]) && !Rectangular(records[0], records[1..])
  {
    if records == [] {
      return Err(EmptyExport);
    }
    var header, rows := records[0], records[1..];
    var problem := HeaderFailure(header);
    if problem.Some? {
      return Err(problem.value);
    }
    for i := 0 to |rows|
      invariant forall k | 0 <= k < i :: |rows[k]| == |header|
    {
      if |rows[i]| != |header| {
        return Err(RowWidth);
      }
    }
    return Ok(Table(header, rows));
  }

  function WithoutMark(text: string): string {
    if text != "" && text[0] == BYTE_ORDER_MARK then text[1..] else text
  }

  // One byte order mark at the beginning is dropped, and nothing else.
  lemma MarkExactly(text: string)
    ensures WithoutMark("\U{FEFF}" + text) == text
    ensures (text == "" || text[0] != '\U{FEFF}') ==> WithoutMark(text) == text
  {
  }

  // A decoded export is accepted exactly when it renders a header of unique, non-empty names and
  // rows of the same width, and then the table holds every field.
  method ParseCurText(text: string) returns (r: Result<Table, ExportProblem>)
    ensures r.Ok? ==> Renders(WithoutMark(text), [r.value.columns] + r.value.rows)
    ensures r.Ok? ==> NamedOnce(r.value.columns) && Rectangular(r.value.columns, r.value.rows)
    ensures r.Err? ==> forall columns, rows ::
              NamedOnce(columns) && Rectangular(columns, rows) ==> !Renders(WithoutMark(text), [columns] + rows)
  {
    var parsed := ParseRecords(WithoutMark(text));
    if parsed.Err? {
      return Err(MalformedText(parsed.error));
    }
    r := TableOf(parsed.value);
    if r.Ok? {
      assert parsed == Ok([r.value.columns] + r.value.rows);
    } else {
      forall columns, rows | NamedOnce(columns) && Rectangular(columns, rows)
        ensures !Renders(WithoutMark(text), [columns] + rows)
      {
        assert ([columns] + rows)[1..] == rows;
      }
    }
  }
}
