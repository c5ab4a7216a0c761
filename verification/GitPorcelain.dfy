// Reading `git status --porcelain=v2 --branch -z`: study-1/src/admission/git-porcelain.ts.

module GitRecords {
  import opened Wrappers

  datatype EntryKind = Changed | Renamed | Unmerged | Untracked | Ignored

  datatype Entry = Entry(kind: EntryKind, path: string, submodule: Option<string>)

  // What one record says by itself.
  datatype Meaning = Header(text: string) | Listed(entry: Entry) | Unread

  // ---------- space-separated fields ----------

  function IndexOf(text: string, c: char): (r: Option<nat>)
    ensures r.Some? ==> r.value < |text| && text[r.value] == c && c !in text[..r.value]
    ensures r.None? ==> c !in text
  {
    if text == [] then None
    else if text[0] == c then Some(0)
    else match IndexOf(text[1..], c)
      case None => None
      case Some(i) =>
        assert text[..i + 1] == [text[0]] + text[1..][..i];
        Some(i + 1)
  }

  function SplitFields(record: string, count: nat): Option<(seq<string>, string)>
    decreases count
  {
    if count == 0 then Some(([], record))
    else match IndexOf(record, ' ')
      case None => None
      case Some(space) =>
        if space == 0 then None
        else match SplitFields(record[space + 1..], count - 1)
          case None => None
          case Some((leading, rest)) => Some(([record[..space]] + leading, rest))
  }

  method SplitLeading(record: string, count: nat) returns (r: Option<(seq<string>, string)>)
    ensures r == SplitFields(record, count)
  {
    var leading: seq<string>, rest := [], record;
    ghost var whole := SplitFields(record, count);
    assert whole.Some? ==> [] + whole.value.0 == whole.value.0;
    for field := 0 to count
      invariant whole == match SplitFields(rest, count - field)
                         case None => None
                         case Some((more, end)) => Some((leading + more, end))
    {
      var space := IndexOf(rest, ' ');
      if space.None? || space.value == 0 {
        return None;
      }
      ghost var later := SplitFields(rest[space.value + 1..], count - field - 1);
      assert later.Some? ==>
          leading + ([rest[..space.value]] + later.value.0) == leading + [rest[..space.value]] + later.value.0;
      leading := leading + [rest[..space.value]];
      rest := rest[space.value + 1..];
    }
    assert leading + [] == leading;
    return Some((leading, rest));
  }

  ghost predicate IsField(field: string) {
    field != "" && ' ' !in field
  }

  ghost predicate AreFields(fields: seq<string>) {
    forall i | 0 <= i < |fields| :: IsField(fields[i])
  }

  function FieldText(fields: seq<string>): string {
    if fields == [] then "" else fields[0] + " " + FieldText(fields[1..])
  }

  lemma {:induction false} FirstSpace(field: string, rest: string)
    requires ' ' !in field
    ensures IndexOf(field + " " + rest, ' ') == Some(|field|)
    decreases |field|
  {
    var text := field + " " + rest;
    if field != "" {
      assert text[1..] == field[1..] + " " + rest;
      FirstSpace(field[1..], rest);
    }
  }

  // Splitting succeeds with given fields exactly when the record is those fields, spaced, and the rest.
  lemma SplitExactly(record: string, count: nat, leading: seq<string>, rest: string)
    ensures SplitFields(record, count) == Some((leading, rest)) <==>
              |leading| == count && AreFields(leading) && record == FieldText(leading) + rest
  {
    hide SplitFields, FieldText;
    if SplitFields(record, count).Some? {
      SplitIsSpaced(record, count);
    }
    if |leading| == count && AreFields(leading) && record == FieldText(leading) + rest {
      SpacedIsSplit(leading, rest);
    }
  }

  lemma {:induction false} SplitIsSpaced(record: string, count: nat)
    requires SplitFields(record, count).Some?
    ensures var (leading, rest) := SplitFields(record, count).value;
      |leading| == count && AreFields(leading) && record == FieldText(leading) + rest
    decreases count
  {
    hide IndexOf, FieldText;
    if count == 0 {
      NoFields(record);
    } else {
      var space := IndexOf(record, ' ').value;
      var field, after := record[..space], record[space + 1..];
      SplitIsSpaced(after, count - 1);
      var (later, rest) := SplitFields(after, count - 1).value;
      assert record == field + " " + after;
      FieldBefore(field, later, rest);
    }
  }

  lemma NoFields(rest: string)
    ensures FieldText([]) + rest == rest
  {
  }

  lemma FieldBefore(field: string, later: seq<string>, rest: string)
    ensures FieldText([field] + later) + rest == field + " " + (FieldText(later) + rest)
  {
    assert ([field] + later)[1..] == later;
  }

  lemma {:induction false} SpacedIsSplit(leading: seq<string>, rest: string)
    requires AreFields(leading)
    ensures SplitFields(FieldText(leading) + rest, |leading|) == Some((leading, rest))
    decreases |leading|
  {
    hide IndexOf;
    if leading == [] {
      assert "" + rest == rest;
    } else {
      var field, more := leading[0], FieldText(leading[1..]) + rest;
      var record := FieldText(leading) + rest;
      assert record == field + " " + more;
      assert IsField(field);
      FirstSpace(field, more);
      assert record[|field| + 1..] == more && record[..|field|] == field;
      SpacedIsSplit(leading[1..], rest);
      assert leading == [field] + leading[1..];
    }
  }

  // ---------- one record ----------

  predicate IsTrackedMarker(c: char) {
    c == '1' || c == '2' || c == 'u'
  }

  function LeadingFields(marker: char): nat {
    if marker == '1' then 8 else if marker == '2' then 9 else 10
  }

  function KindOf(marker: char): EntryKind {
    if marker == '1' then Changed else if marker == '2' then Renamed else Unmerged
  }

  predicate IsTracked(record: string) {
    |record| >= 2 && record[1] == ' ' && IsTrackedMarker(record[0])
  }

  function Tracked(record: string): Meaning
    requires IsTracked(record)
  {
    match SplitFields(record, LeadingFields(record[0]))
    case None => Unread
    case Some((leading, rest)) =>
      if rest == "" || |leading| <= 2 then Unread else Listed(Entry(KindOf(record[0]), rest, Some(leading[2])))
  }

  function MeaningOf(record: string): Meaning {
    if "# " <= record then Header(record[2..])
    else if "? " <= record || "! " <= record then
      if |record| == 2 then Unread
      else Listed(Entry(if record[0] == '?' then Untracked else Ignored, record[2..], None))
    else if IsTracked(record) then Tracked(record)
    else Unread
  }

  // A rename or copy takes the next record as its original path, readable itself or not.
  predicate TakesNext(record: string) {
    IsTracked(record) && record[0] == '2'
  }

  // ---------- a record is an entry exactly when it is a printing of it ----------

  function MarkerOf(kind: EntryKind): char {
    match kind
    case Changed => '1'
    case Renamed => '2'
    case Unmerged => 'u'
    case Untracked => '?'
    case Ignored => '!'
  }

  // The fields before the path of a tracked entry.
  ghost predicate IsLeading(entry: Entry, leading: seq<string>) {
    var marker := MarkerOf(entry.kind);
    && (entry.kind.Changed? || entry.kind.Renamed? || entry.kind.Unmerged?)
    && |leading| == (if entry.kind.Changed? then 8 else if entry.kind.Renamed? then 9 else 10) && AreFields(leading)
    && leading[0] == [marker] && entry.submodule == Some(leading[2])
  }

  ghost predicate IsPrinting(record: string, entry: Entry) {
    && entry.path != ""
    && if entry.kind.Untracked? || entry.kind.Ignored? then
         entry.submodule == None && record == [MarkerOf(entry.kind)] + " " + entry.path
       else exists leading :: IsLeading(entry, leading) && record == FieldText(leading) + entry.path
  }

  lemma RecordExactly(record: string, entry: Entry)
    ensures MeaningOf(record) == Listed(entry) <==> IsPrinting(record, entry)
    ensures MeaningOf(record).Header? <==> "# " <= record
  {
    if IsPrinting(record, entry) {
      PrintingIsRead(record, entry);
    }
    if MeaningOf(record) == Listed(entry) {
      if IsTracked(record) {
        ReadTracked(record, entry);
      } else {
        assert record == [record[0]] + " " + record[2..];
      }
    }
  }

  lemma PrintingIsRead(record: string, entry: Entry)
    requires IsPrinting(record, entry)
    ensures MeaningOf(record) == Listed(entry)
    ensures TakesNext(record) <==> entry.kind.Renamed?
  {
    hide FieldText, SplitFields;
    if IsTrackedMarker(MarkerOf(entry.kind)) {
      var leading :| IsLeading(entry, leading) && record == FieldText(leading) + entry.path;
      PrintedTracked(record, entry, leading);
    } else {
      assert record[2..] == entry.path && record[0] == MarkerOf(entry.kind) && record[1] == ' ';
      assert record == (if entry.kind.Untracked? then "? " else "! ") + entry.path;
    }
  }

  lemma PrintedTracked(record: string, entry: Entry, leading: seq<string>)
    requires IsLeading(entry, leading) && record == FieldText(leading) + entry.path && entry.path != ""
    ensures MeaningOf(record) == Listed(entry) && IsTracked(record) && record[0] == MarkerOf(entry.kind)
  {
    hide SplitFields;
    SplitExactly(record, LeadingFields(MarkerOf(entry.kind)), leading, entry.path);
    assert record == leading[0] + " " + (FieldText(leading[1..]) + entry.path);
    assert record[0] == MarkerOf(entry.kind) && record[1] == ' ';
  }

  lemma ShortField(field: string, record: string)
    requires IsField(field) && |record| > 1 && record[1] == ' ' && field <= record
    ensures |field| == 1
  {
    assert forall i | 0 <= i < |field| :: record[i] == field[i];
  }

  lemma ReadTracked(record: string, entry: Entry)
    requires IsTracked(record) && MeaningOf(record) == Listed(entry)
    ensures IsPrinting(record, entry)
  {
    hide SplitFields;
    var count := LeadingFields(record[0]);
    var (leading, rest) := SplitFields(record, count).value;
    SplitExactly(record, count, leading, rest);
    assert record == leading[0] + (" " + FieldText(leading[1..]) + rest);
    assert IsField(leading[0]);
    ShortField(leading[0], record);
    assert leading[0] == [record[0]];
    assert IsLeading(entry, leading);
  }
}

module GitPorcelain {
  import opened Wrappers
  import opened GitRecords

  datatype Snapshot = Snapshot(
    commitSha: Option<string>,
    branch: Option<string>,
    detachedHead: bool,
    entries: seq<Entry>,
    malformed: seq<string>)

  const NUL: char := '\0'

  // ---------- NUL-terminated records ----------

  // The text before each NUL, and the text after the last one.
  function Split(output: string): (seq<string>, string) {
    match IndexOf(output, NUL)
    case None => ([], output)
    case Some(i) =>
      var (records, trailing) := Split(output[i + 1..]);
      ([output[..i]] + records, trailing)
  }

  function Terminated(records: seq<string>): string {
    if records == [] then "" else records[0] + "\0" + Terminated(records[1..])
  }

  ghost predicate NulFree(records: seq<string>) {
    forall i | 0 <= i < |records| :: '\0' !in records[i]
  }

  lemma {:induction false} FirstNul(record: string, rest: string)
    requires NUL !in record
    ensures IndexOf(record + [NUL] + rest, NUL) == Some(|record|)
    decreases |record|
  {
    if record != "" {
      var text := record + [NUL] + rest;
      assert text[1..] == record[1..] + [NUL] + rest;
      FirstNul(record[1..], rest);
    }
  }

  lemma {:induction false} TerminatedIsSplit(records: seq<string>, trailing: string)
    requires NulFree(records) && NUL !in trailing
    ensures Split(Terminated(records) + trailing) == (records, trailing)
    decreases |records|
  {
    hide IndexOf;
    if records == [] {
      assert "" + trailing == trailing;
    } else {
      var record, more := records[0], Terminated(records[1..]) + trailing;
      var text := Terminated(records) + trailing;
      assert text == record + [NUL] + more;
      FirstNul(record, more);
      assert text[|record| + 1..] == more && text[..|record|] == record;
      TerminatedIsSplit(records[1..], trailing);
      assert records == [record] + records[1..];
    }
  }

  lemma RecordBefore(record: string, later: seq<string>, trailing: string)
    ensures Terminated([record] + later) + trailing == record + [NUL] + (Terminated(later) + trailing)
  {
    assert ([record] + later)[1..] == later;
  }

  lemma {:induction false} SplitIsTerminated(output: string)
    ensures var (records, trailing) := Split(output);
      NulFree(records) && NUL !in trailing && output == Terminated(records) + trailing
    decreases |output|
  {
    hide IndexOf, Terminated;
    match IndexOf(output, NUL) {
      case None =>
        NothingTerminated(output);
      case Some(i) =>
        SplitIsTerminated(output[i + 1..]);
        var (later, trailing) := Split(output[i + 1..]);
        assert output == output[..i] + [NUL] + output[i + 1..];
        RecordBefore(output[..i], later, trailing);
    }
  }

  lemma NothingTerminated(trailing: string)
    ensures Terminated([]) + trailing == trailing
  {
  }

  // ---------- what the records say ----------

  // A record, its meaning, and the original path a rename took along.
  datatype Part = Part(record: string, original: Option<string>)

  ghost function PartsFrom(records: seq<string>, i: nat): seq<Part>
    requires i <= |records|
    decreases |records| - i
  {
    if i == |records| then []
    else if TakesNext(records[i]) && i + 1 < |records| then
      [Part(records[i], Some(records[i + 1]))] + PartsFrom(records, i + 2)
    else [Part(records[i], None)] + PartsFrom(records, i + 1)
  }

  // A header is a name and, after the first space, a value.
  function HeaderName(header: string): string {
    var space := IndexOf(header, ' ');
    if space.None? then header else header[..space.value]
  }

  function HeaderValue(header: string): string {
    var space := IndexOf(header, ' ');
    if space.None? then "" else header[space.value + 1..]
  }

  function WithHeader(s: Snapshot, header: string): Snapshot {
    var name, value := HeaderName(header), HeaderValue(header);
    if name == "branch.oid" then
      s.(commitSha := if value == "(initial)" || value == "" then None else Some(value))
    else if name == "branch.head" then
      s.(detachedHead := value == "(detached)",
         branch := if value == "(detached)" || value == "" then None else Some(value))
    else s
  }

  function WithRecord(s: Snapshot, record: string): Snapshot {
    match MeaningOf(record)
    case Header(text) => WithHeader(s, text)
    case Listed(entry) => s.(entries := s.entries + [entry])
    case Unread => s.(malformed := s.malformed + [record])
  }

  ghost function WithParts(s: Snapshot, parts: seq<Part>): Snapshot
    decreases |parts|
  {
    if parts == [] then s else WithParts(WithRecord(s, parts[0].record), parts[1..])
  }

  function Begun(trailing: string): Snapshot {
    Snapshot(None, None, false, [], if trailing == "" then [] else [trailing])
  }

  ghost function Parsed(output: string): Snapshot {
    var (records, trailing) := Split(output);
    WithParts(Begun(trailing), PartsFrom(records, 0))
  }

  // ---------- the parser ----------

  class ParseState {
    var commitSha: Option<string>
    var branch: Option<string>
    var detachedHead: bool
    var entries: seq<Entry>
    var malformed: seq<string>

    function View(): Snapshot
      reads this
    {
      Snapshot(commitSha, branch, detachedHead, entries, malformed)
    }

    constructor (trailing: string)
      ensures View() == Begun(trailing)
    {
      commitSha, branch, detachedHead, entries := None, None, false, [];
      malformed := if trailing == "" then [] else [trailing];
    }

    method ReadHeader(header: string)
      modifies this
      ensures View() == WithHeader(old(View()), header)
    {
      var space := IndexOf(header, ' ');
      var name := if space.None? then header else header[..space.value];
      var value := if space.None? then "" else header[space.value + 1..];
      if name == "branch.oid" {
        commitSha := if value == "(initial)" || value == "" then None else Some(value);
      }
      if name == "branch.head" {
        detachedHead := value == "(detached)";
        branch := if detachedHead || value == "" then None else Some(value);
      }
    }

    method ReadTracked(marker: char, record: string)
      requires IsTracked(record) && marker == record[0]
      modifies this
      ensures View() == WithRecord(old(View()), record)
    {
      hide SplitFields;
      var fields := SplitLeading(record, LeadingFields(marker));
      if fields.None? || fields.value.1 == "" {
        malformed := malformed + [record];
        return;
      }
      SplitExactly(record, LeadingFields(marker), fields.value.0, fields.value.1);
      entries := entries + [Entry(KindOf(marker), fields.value.1, Some(fields.value.0[2]))];
    }

    // Reads one record; says whether it consumes the next one.
    method ReadRecord(record: string, hasNext: bool) returns (skipped: nat)
      modifies this
      ensures View() == WithRecord(old(View()), record)
      ensures skipped == if TakesNext(record) && hasNext then 1 else 0
    {
      if "# " <= record {
        ReadHeader(record[2..]);
        return 0;
      }
      if "? " <= record || "! " <= record {
        if |record| == 2 {
          malformed := malformed + [record];
        } else {
          entries := entries + [Entry(if record[0] == '?' then Untracked else Ignored, record[2..], None)];
        }
        return 0;
      }
      if IsTracked(record) {
        ReadTracked(record[0], record);
        return if record[0] == '2' && hasNext then 1 else 0;
      }
      malformed := malformed + [record];
      return 0;
    }
  }

  method ParseGitPorcelainV2(output: string) returns (snapshot: Snapshot)
    ensures snapshot == Parsed(output)
  {
    hide Split, WithRecord, TakesNext;
    var (records, trailing) := Split(output);
    var state := new ParseState(trailing);
    var index := 0;
    while index < |records|
      invariant index <= |records|
      invariant Parsed(output) == WithParts(state.View(), PartsFrom(records, index))
    {
      var skipped := state.ReadRecord(records[index], index + 1 < |records|);
      index := index + 1 + skipped;
    }
    return state.View();
  }
}

// The parser loses nothing, and what is printed is read back.
module GitPorcelainTheorems {
  import opened Wrappers
  import opened GitRecords
  import opened GitPorcelain

  function RecordsOf(parts: seq<Part>): seq<string>
    decreases |parts|
  {
    if parts == [] then []
    else RecordsIn(parts[0]) + RecordsOf(parts[1..])
  }

  function RecordsIn(part: Part): seq<string> {
    if part.original.Some? then [part.record, part.original.value] else [part.record]
  }

  function EntryIn(record: string): seq<Entry> {
    match MeaningOf(record) case Listed(entry) => [entry] case _ => []
  }

  function UnreadIn(record: string): seq<string> {
    if MeaningOf(record).Unread? then [record] else []
  }

  function HeaderIn(record: string): seq<string> {
    match MeaningOf(record) case Header(text) => [text] case _ => []
  }

  function EntriesOf(parts: seq<Part>): seq<Entry>
    decreases |parts|
  {
    if parts == [] then []
    else EntryIn(parts[0].record) + EntriesOf(parts[1..])
  }

  function UnreadOf(parts: seq<Part>): seq<string>
    decreases |parts|
  {
    if parts == [] then []
    else UnreadIn(parts[0].record) + UnreadOf(parts[1..])
  }

  function HeadersOf(parts: seq<Part>): seq<string>
    decreases |parts|
  {
    if parts == [] then []
    else HeaderIn(parts[0].record) + HeadersOf(parts[1..])
  }

  // Only a `2` record has an original path, and it has one, readable itself or not, unless it is last.
  ghost predicate ArePaired(parts: seq<Part>) {
    forall i | 0 <= i < |parts| ::
      (parts[i].original.Some? ==> "2 " <= parts[i].record) &&
      ("2 " <= parts[i].record && i + 1 < |parts| ==> parts[i].original.Some?)
  }

  lemma TakesNextExactly(record: string)
    ensures TakesNext(record) <==> "2 " <= record
  {
  }

  lemma {:induction false} PartsAreTheRecords(records: seq<string>, i: nat)
    requires i <= |records|
    ensures RecordsOf(PartsFrom(records, i)) == records[i..]
    decreases |records| - i
  {
    hide TakesNext;
    if i < |records| {
      var parts := PartsFrom(records, i);
      var step := if TakesNext(records[i]) && i + 1 < |records| then 2 else 1;
      PartsAreTheRecords(records, i + step);
      assert parts[1..] == PartsFrom(records, i + step);
      assert records[i..] == RecordsIn(parts[0]) + records[i + step..];
    }
  }

  lemma {:induction false} PartsArePaired(records: seq<string>, i: nat)
    requires i <= |records|
    ensures ArePaired(PartsFrom(records, i))
    ensures PartsFrom(records, i) == [] ==> i == |records|
    decreases |records| - i
  {
    hide TakesNext;
    if i < |records| {
      var parts := PartsFrom(records, i);
      var step := if TakesNext(records[i]) && i + 1 < |records| then 2 else 1;
      PartsArePaired(records, i + step);
      TakesNextExactly(records[i]);
      var later := PartsFrom(records, i + step);
      assert parts == [parts[0]] + later;
      assert forall k | 1 <= k < |parts| :: parts[k] == later[k - 1];
    }
  }

  lemma {:induction false} ListsOfParts(s: Snapshot, parts: seq<Part>)
    ensures var r := WithParts(s, parts);
      r.entries == s.entries + EntriesOf(parts) && r.malformed == s.malformed + UnreadOf(parts)
    ensures |EntriesOf(parts)| + |UnreadOf(parts)| + |HeadersOf(parts)| == |parts|
    decreases |parts|
  {
    hide WithRecord, EntryIn, UnreadIn, HeaderIn;
    if parts != [] {
      var record := parts[0].record;
      ListsOfParts(WithRecord(s, record), parts[1..]);
      OneRecordLists(s, record);
      assert s.entries + EntryIn(record) + EntriesOf(parts[1..])
          == s.entries + (EntryIn(record) + EntriesOf(parts[1..]));
      assert s.malformed + UnreadIn(record) + UnreadOf(parts[1..])
          == s.malformed + (UnreadIn(record) + UnreadOf(parts[1..]));
    }
  }

  lemma OneRecordLists(s: Snapshot, record: string)
    ensures WithRecord(s, record).entries == s.entries + EntryIn(record)
    ensures WithRecord(s, record).malformed == s.malformed + UnreadIn(record)
    ensures |EntryIn(record)| + |UnreadIn(record)| + |HeaderIn(record)| == 1
  {
    hide MeaningOf, WithHeader;
    if MeaningOf(record).Header? {
      HeaderListsNothing(s, MeaningOf(record).text);
    }
  }

  lemma HeaderListsNothing(s: Snapshot, header: string)
    ensures WithHeader(s, header).entries == s.entries && WithHeader(s, header).malformed == s.malformed
  {
    hide IndexOf;
  }

  // The value of the last header of a name.
  function LastNamed(headers: seq<string>, name: string): Option<string> {
    if headers == [] then None
    else if HeaderName(headers[|headers| - 1]) == name then Some(HeaderValue(headers[|headers| - 1]))
    else LastNamed(headers[..|headers| - 1], name)
  }

  predicate IsOrElse(value: string, word: string) {
    value == word || value == ""
  }

  // A header's name has no space, and its value is all that follows the first one.
  lemma HeaderSplits(header: string)
    ensures ' ' !in HeaderName(header)
    ensures if ' ' in header then header == HeaderName(header) + " " + HeaderValue(header)
            else HeaderName(header) == header && HeaderValue(header) == ""
  {
    hide IndexOf;
  }

  // The commit is the last `branch.oid`, unless it is `(initial)` or empty; the branch is the last
  // `branch.head`, unless it is `(detached)`, which is remembered, or empty.
  predicate TellsHead(r: Snapshot, headers: seq<string>) {
    var oid, head := LastNamed(headers, "branch.oid"), LastNamed(headers, "branch.head");
    && r.commitSha == (if oid.None? || IsOrElse(oid.value, "(initial)") then None else oid)
    && r.branch == (if head.None? || IsOrElse(head.value, "(detached)") then None else head)
    && r.detachedHead == (head == Some("(detached)"))
  }

  lemma OneMoreHeader(s: Snapshot, headers: seq<string>, header: string)
    requires TellsHead(s, headers)
    ensures TellsHead(WithHeader(s, header), headers + [header])
  {
    hide HeaderName, HeaderValue;
    assert (headers + [header])[..|headers|] == headers;
    assert "branch.oid"[7] != "branch.head"[7];
  }

  lemma {:induction false} PartsTellHead(s: Snapshot, before: seq<string>, parts: seq<Part>)
    requires TellsHead(s, before)
    ensures TellsHead(WithParts(s, parts), before + HeadersOf(parts))
    decreases |parts|
  {
    hide TellsHead, MeaningOf, WithHeader;
    if parts == [] {
      assert before + [] == before;
    } else {
      var record := parts[0].record;
      if MeaningOf(record).Header? {
        OneMoreHeader(s, before, MeaningOf(record).text);
      } else {
        assert before + [] == before;
        ListingTellsNothing(s, before, record);
      }
      PartsTellHead(WithRecord(s, record), before + HeaderIn(record), parts[1..]);
      assert before + HeaderIn(record) + HeadersOf(parts[1..]) == before + HeadersOf(parts);
    }
  }

  lemma ListingTellsNothing(s: Snapshot, before: seq<string>, record: string)
    requires TellsHead(s, before) && !MeaningOf(record).Header?
    ensures TellsHead(WithRecord(s, record), before)
  {
    hide MeaningOf, LastNamed;
  }

  // The output is its records; each is a header, one entry, one malformed record or the original path
  // right after a rename; the entries and malformed records are listed in order, one for one; and the
  // commit and the branch are what the last header of each says.
  lemma NothingIsLost(output: string)
    ensures var (records, trailing) := Split(output);
      var parts, snapshot := PartsFrom(records, 0), Parsed(output);
      && output == Terminated(records) + trailing && NulFree(records) && NUL !in trailing
      && RecordsOf(parts) == records && ArePaired(parts)
      && snapshot.entries == EntriesOf(parts)
      && snapshot.malformed == (if trailing == "" then [] else [trailing]) + UnreadOf(parts)
      && |EntriesOf(parts)| + |UnreadOf(parts)| + |HeadersOf(parts)| == |parts|
      && TellsHead(snapshot, HeadersOf(parts))
  {
    hide Split, PartsFrom, WithParts, RecordsOf, EntriesOf, UnreadOf, HeadersOf, ArePaired, Terminated;
    var (records, trailing) := Split(output);
    SplitIsTerminated(output);
    PartsAreTheRecords(records, 0);
    PartsArePaired(records, 0);
    assert records[0..] == records;
    ListsOfParts(Begun(trailing), PartsFrom(records, 0));
    PartsTellHead(Begun(trailing), [], PartsFrom(records, 0));
    assert [] + HeadersOf(PartsFrom(records, 0)) == HeadersOf(PartsFrom(records, 0));
    assert [] + EntriesOf(PartsFrom(records, 0)) == EntriesOf(PartsFrom(records, 0));
  }

  predicate IsHarmless(record: string) {
    match MeaningOf(record)
    case Header(_) => true
    case Listed(entry) => entry.kind.Ignored?
    case Unread => false
  }

  predicate AllHarmless(records: seq<string>) {
    forall i | 0 <= i < |records| :: IsHarmless(records[i])
  }

  predicate AllIgnored(entries: seq<Entry>) {
    forall i | 0 <= i < |entries| :: entries[i].kind.Ignored?
  }

  // A snapshot without malformed records whose entries are all ignored comes from output in which every
  // record is a header or an ignored entry and nothing trails, and only from such output.
  lemma CleanExactly(output: string)
    ensures var (records, trailing) := Split(output);
      Parsed(output).malformed == [] && AllIgnored(Parsed(output).entries) <==> trailing == "" && AllHarmless(records)
  {
    hide Split, PartsFrom, WithParts, RecordsOf, EntriesOf, UnreadOf, HeadersOf, Terminated, Parsed, AllHarmless,
         AllIgnored;
    var (records, trailing) := Split(output);
    NothingIsLost(output);
    CleanParts(PartsFrom(records, 0));
  }

  lemma {:induction false} CleanParts(parts: seq<Part>)
    requires ArePaired(parts)
    ensures UnreadOf(parts) == [] && AllIgnored(EntriesOf(parts)) <==> AllHarmless(RecordsOf(parts))
    decreases |parts|
  {
    hide EntryIn, UnreadIn, TakesNext, AllHarmless, AllIgnored, RecordsIn;
    if parts == [] {
      NothingIsClean();
    } else {
      var first, rest := parts[0], parts[1..];
      assert forall i | 0 <= i < |rest| :: rest[i] == parts[i + 1];
      CleanParts(rest);
      CleanPart(first);
      HarmlessInTurn(RecordsIn(first), RecordsOf(rest));
      IgnoredInTurn(EntryIn(first.record), EntriesOf(rest));
    }
  }

  lemma NothingIsClean()
    ensures AllIgnored([]) && AllHarmless([])
  {
  }

  lemma CleanPart(part: Part)
    requires part.original.Some? ==> "2 " <= part.record
    ensures UnreadIn(part.record) == [] && AllIgnored(EntryIn(part.record)) <==> AllHarmless(RecordsIn(part))
  {
    hide SplitFields;
    assert RecordsIn(part)[0] == part.record;
    if MeaningOf(part.record).Listed? {
      assert EntryIn(part.record)[0] == MeaningOf(part.record).entry;
    }
  }

  lemma HarmlessInTurn(a: seq<string>, b: seq<string>)
    ensures AllHarmless(a + b) <==> AllHarmless(a) && AllHarmless(b)
  {
    hide IsHarmless;
    assert forall i | 0 <= i < |b| :: b[i] == (a + b)[|a| + i];
    assert forall i | 0 <= i < |a| :: a[i] == (a + b)[i];
  }

  lemma IgnoredInTurn(a: seq<Entry>, b: seq<Entry>)
    ensures AllIgnored(a + b) <==> AllIgnored(a) && AllIgnored(b)
  {
    assert forall i | 0 <= i < |b| :: b[i] == (a + b)[|a| + i];
    assert forall i | 0 <= i < |a| :: a[i] == (a + b)[i];
  }

  // ---------- printing, then parsing ----------

  // The part is a printing of a header or an entry; a rename comes with its original path.
  ghost predicate IsPrinted(part: Part, said: Meaning) {
    match said
    case Header(text) => part == Part("# " + text, None)
    case Listed(entry) => IsPrinting(part.record, entry) && (part.original.Some? <==> entry.kind.Renamed?)
    case Unread => false
  }

  function EntriesSaid(said: seq<Meaning>): seq<Entry>
    decreases |said|
  {
    if said == [] then []
    else (match said[0] case Listed(entry) => [entry] case _ => []) + EntriesSaid(said[1..])
  }

  function HeadersSaid(said: seq<Meaning>): seq<string>
    decreases |said|
  {
    if said == [] then []
    else (match said[0] case Header(text) => [text] case _ => []) + HeadersSaid(said[1..])
  }

  lemma PrintedMeans(part: Part, said: Meaning)
    requires IsPrinted(part, said)
    ensures MeaningOf(part.record) == said && !said.Unread?
    ensures TakesNext(part.record) <==> part.original.Some?
  {
    match said {
      case Header(text) =>
        assert part.record[2..] == text && part.record[0] == '#';
      case Listed(entry) =>
        PrintingIsRead(part.record, entry);
    }
  }

  lemma {:induction false} RecordsMakeTheParts(parts: seq<Part>, before: seq<string>)
    requires forall i | 0 <= i < |parts| :: TakesNext(parts[i].record) <==> parts[i].original.Some?
    ensures PartsFrom(before + RecordsOf(parts), |before|) == parts
    decreases |parts|
  {
    hide TakesNext;
    if parts != [] {
      var first := parts[0];
      var mine := RecordsIn(first);
      var records := before + RecordsOf(parts);
      assert records == before + mine + RecordsOf(parts[1..]);
      RecordsMakeTheParts(parts[1..], before + mine);
      assert records[|before|] == first.record;
      if first.original.Some? {
        assert records[|before| + 1] == first.original.value;
      }
      assert parts == [first] + parts[1..];
    }
  }

  lemma {:induction false} PartsSay(parts: seq<Part>, said: seq<Meaning>)
    requires |parts| == |said| && forall i | 0 <= i < |parts| :: IsPrinted(parts[i], said[i])
    ensures EntriesOf(parts) == EntriesSaid(said) && HeadersOf(parts) == HeadersSaid(said) && UnreadOf(parts) == []
    decreases |parts|
  {
    hide IsPrinted, MeaningOf;
    if parts != [] {
      PrintedMeans(parts[0], said[0]);
      PartsSay(parts[1..], said[1..]);
    }
  }

  // Printing headers and entries and parsing the text returns exactly the entries, nothing malformed,
  // and the commit and branch of the last headers that name them.
  lemma PrintThenParse(parts: seq<Part>, said: seq<Meaning>)
    requires |parts| == |said| && forall i | 0 <= i < |parts| :: IsPrinted(parts[i], said[i])
    requires NulFree(RecordsOf(parts))
    ensures var snapshot := Parsed(Terminated(RecordsOf(parts)));
      && snapshot.entries == EntriesSaid(said) && snapshot.malformed == []
      && TellsHead(snapshot, HeadersSaid(said))
  {
    hide IsPrinted, MeaningOf, TakesNext, Split, WithParts, PartsFrom, TellsHead, EntriesOf, UnreadOf, HeadersOf,
         EntriesSaid, HeadersSaid, RecordsOf, Terminated;
    var records := RecordsOf(parts);
    TerminatedIsSplit(records, "");
    assert Terminated(records) + "" == Terminated(records);
    forall i | 0 <= i < |parts|
      ensures TakesNext(parts[i].record) <==> parts[i].original.Some?
    {
      PrintedMeans(parts[i], said[i]);
    }
    RecordsMakeTheParts(parts, []);
    assert [] + records == records;
    PartsSay(parts, said);
    NothingIsLost(Terminated(records));
  }
}
