/**
 The CSV export of a change request (lib/export.ts) and a reader for it: RFC 4180
 section 2 with a semicolon as separator. Reading what was printed gives back every
 field, each with the formula guard the printer adds.
 */
module CsvExport {
  import opened Wrappers

  datatype Benchmark = Benchmark(code: string, name: string, formattedCost: string)
  datatype Item = Item(portfolioName: string, portfolioReference: string, previous: Benchmark, requested: Benchmark)
  datatype Request = Request(
    reference: string, clientName: string, clientReference: Option<string>, requestedBy: string,
    changeTypeName: Option<string>, changeType: string, status: string,
    effectiveDate: Option<string>, rationale: string, items: seq<Item>)

  const BYTE_ORDER_MARK: char := '\U{FEFF}'
  const CRLF := "\r\n"

  // ---- Printing ----

  predicate StartsFormula(s: string) {
    s != "" && (s[0] == '=' || s[0] == '+' || s[0] == '-' || s[0] == '@' || s[0] == '\t')
  }

  /** The field as a reader sees it: null is empty, and a formula start gets a leading quote. */
  function Guarded(value: Option<string>): string {
    var str := if value.None? then "" else value.value;
    if StartsFormula(str) then "'" + str else str
  }

  predicate NeedsQuoting(s: string) {
    ';' in s || '"' in s || '\n' in s || '\r' in s
  }

  /** replace(/"/g, '""') */
  function Doubled(s: string): string {
    if s == "" then "" else (if s[0] == '"' then "\"\"" else [s[0]]) + Doubled(s[1..])
  }

  /** escapeCsvField */
  function EscapeField(value: Option<string>): string {
    var str := Guarded(value);
    if NeedsQuoting(str) then "\"" + Doubled(str) + "\"" else str
  }

  function JoinFields(fields: seq<Option<string>>): string
    requires fields != []
  {
    if |fields| == 1 then EscapeField(fields[0])
    else EscapeField(fields[0]) + ";" + JoinFields(fields[1..])
  }

  /** rows.join("\r\n") */
  function JoinRows(rows: seq<string>): string
    requires rows != []
  {
    if |rows| == 1 then rows[0] else rows[0] + CRLF + JoinRows(rows[1..])
  }

  // ---- Reading ----

  predicate IsPlain(c: char) {
    c != ';' && c != '"' && c != '\r' && c != '\n'
  }

  function PlainLength(s: string): (n: nat)
    ensures n <= |s|
  {
    if s != "" && IsPlain(s[0]) then 1 + PlainLength(s[1..]) else 0
  }

  /** The rest of a quoted field after its opening quote: the value and what follows the closing quote. */
  function ReadQuoted(s: string): (r: Option<(string, string)>)
    ensures r.Some? ==> |r.value.1| < |s|
    decreases |s|
  {
    if s == "" then None
    else if s[0] == '"' then
      if |s| > 1 && s[1] == '"' then
        var r := ReadQuoted(s[2..]);
        if r.Some? then Some(("\"" + r.value.0, r.value.1)) else None
      else Some(("", s[1..]))
    else
      var r := ReadQuoted(s[1..]);
      if r.Some? then Some(([s[0]] + r.value.0, r.value.1)) else None
  }

  function ReadField(s: string): (r: Option<(string, string)>)
    ensures r.Some? ==> |r.value.1| <= |s|
  {
    if s != "" && s[0] == '"' then ReadQuoted(s[1..])
    else
      var n := PlainLength(s);
      Some((s[..n], s[n..]))
  }

  predicate AtRecordEnd(s: string) {
    s == "" || CRLF <= s
  }

  function ReadRecord(s: string): (r: Option<(seq<string>, string)>)
    ensures r.Some? ==> |r.value.1| <= |s| && AtRecordEnd(r.value.1)
    decreases |s|
  {
    var field := ReadField(s);
    if field.None? then None
    else
      var (value, rest) := field.value;
      if AtRecordEnd(rest) then Some(([value], rest))
      else if rest[0] == ';' then
        var others := ReadRecord(rest[1..]);
        if others.Some? then Some(([value] + others.value.0, others.value.1)) else None
      else None
  }

  /** A file of records, each ended by CRLF; the last one may end with the file. */
  function ReadTable(s: string): Option<seq<seq<string>>>
    decreases |s|
  {
    if s == "" then Some([])
    else
      var record := ReadRecord(s);
      if record.None? then None
      else if record.value.1 == "" then Some([record.value.0])
      else
        var others := ReadTable(record.value.1[2..]);
        if others.Some? then Some([record.value.0] + others.value) else None
  }

  // ---- Round trips ----

  predicate EndsField(tail: string) {
    AtRecordEnd(tail) || (tail != "" && tail[0] == ';')
  }

  lemma {:induction false} ReadDoubled(s: string, tail: string)
    requires tail == "" || tail[0] != '"'
    ensures ReadQuoted(Doubled(s) + "\"" + tail) == Some((s, tail))
    decreases |s|
  {
    var printed := Doubled(s) + "\"" + tail;
    if s == "" {
      assert printed == "\"" + tail;
      assert printed[1..] == tail;
    } else {
      var others := Doubled(s[1..]) + "\"" + tail;
      ReadDoubled(s[1..], tail);
      if s[0] == '"' {
        assert printed == "\"\"" + others && printed[2..] == others;
      } else {
        assert printed == [s[0]] + others && printed[1..] == others;
      }
      assert s == [s[0]] + s[1..];
    }
  }

  lemma {:induction false} ReadPlain(s: string, tail: string)
    requires forall c <- s :: IsPlain(c)
    requires EndsField(tail)
    ensures PlainLength(s + tail) == |s|
    decreases |s|
  {
    if s == "" {
      assert s + tail == tail;
    } else {
      assert s[0] in s;
      assert (s + tail)[1..] == s[1..] + tail;
      ReadPlain(s[1..], tail);
    }
  }

  lemma QuotedRoundTrip(str: string, tail: string)
    requires EndsField(tail)
    ensures ReadField("\"" + Doubled(str) + "\"" + tail) == Some((str, tail))
  {
    hide Doubled, ReadQuoted;
    var printed := "\"" + Doubled(str) + "\"" + tail;
    assert printed[1..] == Doubled(str) + "\"" + tail;
    ReadDoubled(str, tail);
  }

  lemma PlainRoundTrip(str: string, tail: string)
    requires EndsField(tail) && !NeedsQuoting(str)
    ensures ReadField(str + tail) == Some((str, tail))
  {
    var printed := str + tail;
    forall c | c in str ensures IsPlain(c) {
    }
    ReadPlain(str, tail);
    hide PlainLength, NeedsQuoting;
    assert printed[..|str|] == str && printed[|str|..] == tail;
    assert printed == "" || printed[0] != '"' by {
      if str != "" { assert printed[0] == str[0] && str[0] in str; }
    }
  }

  /** Every field value, whatever it contains, is read back with its guard. */
  lemma FieldRoundTrip(value: Option<string>, tail: string)
    requires EndsField(tail)
    ensures ReadField(EscapeField(value) + tail) == Some((Guarded(value), tail))
  {
    hide Doubled, ReadField, Guarded;
    if NeedsQuoting(Guarded(value)) {
      QuotedRoundTrip(Guarded(value), tail);
    } else {
      PlainRoundTrip(Guarded(value), tail);
    }
    hide NeedsQuoting, EndsField;
  }

  function GuardedFields(fields: seq<Option<string>>): (r: seq<string>)
    ensures |r| == |fields|
  {
    if fields == [] then [] else [Guarded(fields[0])] + GuardedFields(fields[1..])
  }

  lemma {:induction false} RecordRoundTrip(fields: seq<Option<string>>, tail: string)
    requires fields != [] && AtRecordEnd(tail)
    ensures ReadRecord(JoinFields(fields) + tail) == Some((GuardedFields(fields), tail))
    decreases |fields|
  {
    hide EscapeField, ReadField, Guarded;
    if |fields| == 1 {
      FieldRoundTrip(fields[0], tail);
      assert GuardedFields(fields) == [Guarded(fields[0])];
    } else {
      var others := JoinFields(fields[1..]) + tail;
      var rest := ";" + others;
      assert rest[0] == ';' && rest[1..] == others && EndsField(rest) && !AtRecordEnd(rest);
      hide AtRecordEnd, EndsField;
      assert JoinFields(fields) + tail == EscapeField(fields[0]) + rest;
      FieldRoundTrip(fields[0], rest);
      RecordRoundTrip(fields[1..], tail);
    }
  }

  /** A table whose rows have at least one field. */
  predicate IsTable(table: seq<seq<Option<string>>>) {
    forall k | 0 <= k < |table| :: table[k] != []
  }

  /** Each row followed by CRLF: what joining the rows and adding a last CRLF amounts to. */
  function PrintTable(table: seq<seq<Option<string>>>): string
    requires IsTable(table)
  {
    if table == [] then "" else JoinFields(table[0]) + CRLF + PrintTable(table[1..])
  }

  function GuardedTable(table: seq<seq<Option<string>>>): seq<seq<string>> {
    if table == [] then [] else [GuardedFields(table[0])] + GuardedTable(table[1..])
  }

  lemma {:induction false} TableRoundTrip(table: seq<seq<Option<string>>>)
    requires IsTable(table)
    ensures ReadTable(PrintTable(table)) == Some(GuardedTable(table))
    decreases |table|
  {
    if table != [] {
      var others := PrintTable(table[1..]);
      var tail := CRLF + others;
      assert PrintTable(table) == JoinFields(table[0]) + tail;
      RecordRoundTrip(table[0], tail);
      TableRoundTrip(table[1..]);
      assert tail[2..] == others;
    }
  }

  lemma {:induction false} JoinedRowsArePrinted(rows: seq<string>, table: seq<seq<Option<string>>>)
    requires IsTable(table) && |rows| == |table| > 0
    requires forall k | 0 <= k < |rows| :: rows[k] == JoinFields(table[k])
    ensures JoinRows(rows) + CRLF == PrintTable(table)
    decreases |rows|
  {
    if |rows| == 1 {
      assert PrintTable(table) == rows[0] + CRLF + "";
    } else {
      JoinedRowsArePrinted(rows[1..], table[1..]);
      assert JoinRows(rows) + CRLF == rows[0] + CRLF + (JoinRows(rows[1..]) + CRLF);
    }
  }

  /** Two values look the same to a reader only if they are the same or one is the other's guarded form. */
  lemma GuardCollisions(v: string, w: string)
    ensures Guarded(Some(v)) == Guarded(Some(w))
            <==> v == w || (StartsFormula(v) && w == "'" + v) || (StartsFormula(w) && v == "'" + w)
  {
    assert StartsFormula(v) ==> ("'" + v)[1..] == v;
    assert StartsFormula(w) ==> ("'" + w)[1..] == w;
  }

  // ---- The export ----

  function Labelled(name: string, value: Option<string>): seq<Option<string>> {
    [Some(name), value]
  }

  const NAMES: seq<string> := [
    "Referentie", "Client", "Clientreferentie", "Aanvrager", "Type", "Status", "Ingangsdatum", "Reden"]

  function MetadataTable(r: Request): seq<seq<Option<string>>> {
    [ Labelled(NAMES[0], Some(r.reference)),
      Labelled(NAMES[1], Some(r.clientName)),
      Labelled(NAMES[2], r.clientReference),
      Labelled(NAMES[3], Some(r.requestedBy)),
      Labelled(NAMES[4], if r.changeTypeName.Some? then r.changeTypeName else Some(r.changeType)),
      Labelled(NAMES[5], Some(r.status)),
      Labelled(NAMES[6], r.effectiveDate),
      Labelled(NAMES[7], Some(r.rationale)) ]
  }

  const HEADERS: seq<string> := [
    "Portefeuille", "Referentie", "IST Benchmark Code", "IST Benchmark Naam",
    "SOLL Benchmark Code", "SOLL Benchmark Naam", "Kosten (EUR)"]

  function Values(texts: seq<string>): (r: seq<Option<string>>)
    ensures |r| == |texts|
  {
    if texts == [] then [] else [Some(texts[0])] + Values(texts[1..])
  }

  /** texts.join(";") */
  function JoinTexts(texts: seq<string>): string
    requires texts != []
  {
    if |texts| == 1 then texts[0] else texts[0] + ";" + JoinTexts(texts[1..])
  }

  function ItemRow(i: Item): seq<Option<string>> {
    [ Some(i.portfolioName), Some(i.portfolioReference), Some(i.previous.code), Some(i.previous.name),
      Some(i.requested.code), Some(i.requested.name), Some(i.requested.formattedCost) ]
  }

  /** The rows a reader of the export is meant to see, before guarding. */
  function RequestTable(r: Request): (table: seq<seq<Option<string>>>)
    ensures IsTable(table)
  {
    MetadataTable(r) + [[Some("")], Values(HEADERS)] + seq(|r.items|, k requires 0 <= k < |r.items| => ItemRow(r.items[k]))
  }

  lemma PlainPrintsAsItself(s: string)
    requires IsPlainText(s)
    ensures EscapeField(Some(s)) == s
  {
  }

  predicate IsPlainText(s: string) {
    !NeedsQuoting(s) && !StartsFormula(s)
  }

  lemma {:induction false} PlainTextsJoin(texts: seq<string>)
    requires texts != [] && forall k | 0 <= k < |texts| :: IsPlainText(texts[k])
    ensures JoinFields(Values(texts)) == JoinTexts(texts)
  {
    PlainPrintsAsItself(texts[0]);
    if |texts| > 1 {
      PlainTextsJoin(texts[1..]);
    }
  }

  lemma HeadersArePlain()
    ensures forall k | 0 <= k < |HEADERS| :: IsPlainText(HEADERS[k])
  {
    assert IsPlainText("Portefeuille");
    assert IsPlainText("Referentie");
    assert IsPlainText("IST Benchmark Code");
    assert IsPlainText("IST Benchmark Naam");
    assert IsPlainText("SOLL Benchmark Code");
    assert IsPlainText("SOLL Benchmark Naam");
    assert IsPlainText("Kosten (EUR)");
  }

  /** One row of the metadata block: `Name;value`. */
  function MetadataRow(name: string, value: Option<string>): string {
    name + ";" + EscapeField(value)
  }

  lemma LabelledPrints(name: string, value: Option<string>)
    requires IsPlainText(name)
    ensures JoinFields(Labelled(name, value)) == MetadataRow(name, value)
  {
  }

  /** What the export says, as a reader of the file gets it. */
  function ExportText(r: Request): string {
    [BYTE_ORDER_MARK] + PrintTable(RequestTable(r))
  }

  /** The rows so far are the printed first rows of the table. */
  ghost predicate PrintsRows(rows: seq<string>, table: seq<seq<Option<string>>>) {
    |rows| <= |table| && IsTable(table) && forall k | 0 <= k < |rows| :: rows[k] == JoinFields(table[k])
  }

  lemma NamesArePlain()
    ensures forall k | 0 <= k < |NAMES| :: IsPlainText(NAMES[k])
  {
  }

  /** rows.push of the k-th metadata row */
  method PushMetadata(rows: seq<string>, ghost table: seq<seq<Option<string>>>, k: nat, value: Option<string>)
      returns (longer: seq<string>)
    requires |rows| == k < |NAMES| == |table| && PrintsRows(rows, table)
    requires table[k] == Labelled(NAMES[k], value)
    ensures |longer| == k + 1 && PrintsRows(longer, table)
    ensures longer == rows + [MetadataRow(NAMES[k], value)]
  {
    NamesArePlain();
    LabelledPrints(NAMES[k], value);
    hide JoinFields, MetadataRow;
    longer := rows + [MetadataRow(NAMES[k], value)];
  }

  method MetadataRows(r: Request) returns (rows: seq<string>)
    ensures |rows| == |MetadataTable(r)| && PrintsRows(rows, MetadataTable(r))
  {
    ghost var table := MetadataTable(r);
    rows := [];
    assert PrintsRows(rows, table);
    hide PrintsRows, Labelled;
    rows := PushMetadata(rows, table, 0, Some(r.reference));
    rows := PushMetadata(rows, table, 1, Some(r.clientName));
    rows := PushMetadata(rows, table, 2, r.clientReference);
    rows := PushMetadata(rows, table, 3, Some(r.requestedBy));
    rows := PushMetadata(rows, table, 4, if r.changeTypeName.Some? then r.changeTypeName else Some(r.changeType));
    rows := PushMetadata(rows, table, 5, Some(r.status));
    rows := PushMetadata(rows, table, 6, r.effectiveDate);
    rows := PushMetadata(rows, table, 7, Some(r.rationale));
  }

  lemma RequestTableShape(r: Request)
    ensures var table := RequestTable(r);
            var m := |MetadataTable(r)|;
            && IsTable(table) && |table| == m + 2 + |r.items| && table[..m] == MetadataTable(r)
            && table[m] == [Some("")] && table[m + 1] == Values(HEADERS)
            && forall k | 0 <= k < |r.items| :: table[m + 2 + k] == ItemRow(r.items[k])
  {
  }

  lemma FixedRowsPrint()
    ensures JoinFields([Some("")]) == "" && JoinFields(Values(HEADERS)) == JoinTexts(HEADERS)
  {
    HeadersArePlain();
    hide IsPlainText;
    PlainTextsJoin(HEADERS);
  }

  lemma MarkedTextReads(rows: seq<string>, table: seq<seq<Option<string>>>)
    requires table != [] && |rows| == |table| && PrintsRows(rows, table)
    ensures [BYTE_ORDER_MARK] + JoinRows(rows) + CRLF == [BYTE_ORDER_MARK] + PrintTable(table)
    ensures ReadTable(([BYTE_ORDER_MARK] + PrintTable(table))[1..]) == Some(GuardedTable(table))
  {
    JoinedRowsArePrinted(rows, table);
    TableRoundTrip(table);
    assert [BYTE_ORDER_MARK] + JoinRows(rows) + CRLF == [BYTE_ORDER_MARK] + (JoinRows(rows) + CRLF);
    assert ([BYTE_ORDER_MARK] + PrintTable(table))[1..] == PrintTable(table);
  }

  // ---- What the file says ----

  /** The field as read: nothing for null, a quote before a formula start, and otherwise the value itself. */
  predicate Shows(field: string, value: Option<string>) {
    match value
    case None => field == ""
    case Some(v) => field == if v != "" && v[0] in {'=', '+', '-', '@', '\t'} then "'" + v else v
  }

  predicate ShowsPair(record: seq<string>, name: string, value: Option<string>) {
    |record| == 2 && record[0] == name && Shows(record[1], value)
  }

  predicate ShowsItem(record: seq<string>, i: Item) {
    && |record| == 7
    && Shows(record[0], Some(i.portfolioName)) && Shows(record[1], Some(i.portfolioReference))
    && Shows(record[2], Some(i.previous.code)) && Shows(record[3], Some(i.previous.name))
    && Shows(record[4], Some(i.requested.code)) && Shows(record[5], Some(i.requested.name))
    && Shows(record[6], Some(i.requested.formattedCost))
  }

  /** The eight labelled values, an empty record, the seven headings, and one record per item. */
  predicate ShowsRequest(table: seq<seq<string>>, r: Request) {
    && |table| == 10 + |r.items|
    && ShowsPair(table[0], "Referentie", Some(r.reference)) && ShowsPair(table[1], "Client", Some(r.clientName))
    && ShowsPair(table[2], "Clientreferentie", r.clientReference) && ShowsPair(table[3], "Aanvrager", Some(r.requestedBy))
    && ShowsPair(table[4], "Type", Some(if r.changeTypeName.Some? then r.changeTypeName.value else r.changeType))
    && ShowsPair(table[5], "Status", Some(r.status)) && ShowsPair(table[6], "Ingangsdatum", r.effectiveDate)
    && ShowsPair(table[7], "Reden", Some(r.rationale))
    && table[8] == [""]
    && table[9] == ["Portefeuille", "Referentie", "IST Benchmark Code", "IST Benchmark Naam",
                    "SOLL Benchmark Code", "SOLL Benchmark Naam", "Kosten (EUR)"]
    && forall k | 0 <= k < |r.items| :: ShowsItem(table[10 + k], r.items[k])
  }

  lemma {:induction false} GuardedFieldAt(fields: seq<Option<string>>, k: nat)
    requires k < |fields|
    ensures GuardedFields(fields)[k] == Guarded(fields[k])
  {
    hide Guarded;
    if k > 0 { GuardedFieldAt(fields[1..], k - 1); }
  }

  lemma {:induction false} GuardedRowAt(table: seq<seq<Option<string>>>, k: nat)
    requires k < |table|
    ensures |GuardedTable(table)| == |table| && GuardedTable(table)[k] == GuardedFields(table[k])
    decreases |table|
  {
    hide GuardedFields;
    if |table| > 1 { GuardedRowAt(table[1..], if k > 0 then k - 1 else 0); }
    if |table| == 1 { assert table[1..] == []; }
  }

  lemma GuardedShows(value: Option<string>)
    ensures Shows(Guarded(value), value)
  {
  }

  lemma PairShows(name: string, value: Option<string>)
    requires IsPlainText(name)
    ensures ShowsPair(GuardedFields(Labelled(name, value)), name, value)
  {
    GuardedFieldAt(Labelled(name, value), 0);
    GuardedFieldAt(Labelled(name, value), 1);
    GuardedShows(value);
    hide Shows, GuardedFields;
  }

  lemma ItemShows(i: Item)
    ensures ShowsItem(GuardedFields(ItemRow(i)), i)
  {
    var row := ItemRow(i);
    hide GuardedFields, Guarded, Shows;
    forall k | 0 <= k < 7 ensures GuardedFields(row)[k] == Guarded(row[k]) && Shows(Guarded(row[k]), row[k]) {
      GuardedFieldAt(row, k);
      GuardedShows(row[k]);
    }
  }

  /** The k-th metadata record shows its name and its value. */
  lemma MetadataShows(r: Request, k: nat, name: string, value: Option<string>)
    requires k < 8 && name == NAMES[k] && MetadataTable(r)[k] == Labelled(name, value)
    ensures ShowsPair(GuardedFields(MetadataTable(r)[k]), name, value)
  {
    NamesArePlain();
    hide MetadataTable, ShowsPair, GuardedFields, IsPlainText;
    PairShows(name, value);
  }

  lemma HeadingsShow()
    ensures GuardedFields(Values(HEADERS))
            == ["Portefeuille", "Referentie", "IST Benchmark Code", "IST Benchmark Naam",
                "SOLL Benchmark Code", "SOLL Benchmark Naam", "Kosten (EUR)"]
    ensures GuardedFields([Some("")]) == [""]
  {
    HeadersArePlain();
    GuardedFieldAt([Some("")], 0);
    forall k | 0 <= k < 7 ensures GuardedFields(Values(HEADERS))[k] == HEADERS[k] {
      ValueAt(HEADERS, k);
      GuardedFieldAt(Values(HEADERS), k);
    }
    hide GuardedFields, Values;
  }

  lemma {:induction false} ValueAt(texts: seq<string>, k: nat)
    requires k < |texts|
    ensures Values(texts)[k] == Some(texts[k])
  {
    if k > 0 { ValueAt(texts[1..], k - 1); }
  }

  /** The table of the export, as read, shows the request. */
  lemma TableShowsRequest(r: Request)
    ensures ShowsRequest(GuardedTable(RequestTable(r)), r)
  {
    var table := RequestTable(r);
    RequestTableShape(r);
    HeadingsShow();
    hide RequestTable, GuardedTable, GuardedFields, ShowsPair, ShowsItem, Values;
    forall k | 0 <= k < |table|
      ensures |GuardedTable(table)| == |table| && GuardedTable(table)[k] == GuardedFields(table[k])
    {
      GuardedRowAt(table, k);
    }
    forall k | 0 <= k < 8 ensures table[k] == MetadataTable(r)[k] {
      assert table[..8][k] == table[k];
    }
    hide Labelled;
    MetadataShows(r, 0, "Referentie", Some(r.reference));
    MetadataShows(r, 1, "Client", Some(r.clientName));
    MetadataShows(r, 2, "Clientreferentie", r.clientReference);
    MetadataShows(r, 3, "Aanvrager", Some(r.requestedBy));
    MetadataShows(r, 4, "Type", Some(if r.changeTypeName.Some? then r.changeTypeName.value else r.changeType));
    MetadataShows(r, 5, "Status", Some(r.status));
    MetadataShows(r, 6, "Ingangsdatum", r.effectiveDate);
    MetadataShows(r, 7, "Reden", Some(r.rationale));
    forall k | 0 <= k < |r.items| ensures ShowsItem(GuardedTable(table)[10 + k], r.items[k]) {
      ItemShows(r.items[k]);
    }
  }

  /** buildCsvContent: every row and field comes back from the file, guarded and otherwise unchanged. */
  method BuildCsvContent(r: Request) returns (content: string)
    ensures content == ExportText(r)
    ensures content != "" && content[0] == '\U{FEFF}'
    ensures ReadTable(content[1..]) == Some(GuardedTable(RequestTable(r)))
    ensures ReadTable(content[1..]).Some? && ShowsRequest(ReadTable(content[1..]).value, r)
  {
    ghost var table := RequestTable(r);
    RequestTableShape(r);
    TableShowsRequest(r);
    FixedRowsPrint();
    hide ShowsRequest, RequestTable, MetadataTable, JoinFields, JoinTexts, Values;
    var rows := MetadataRows(r);
    assert PrintsRows(rows, table);
    rows := rows + [""];
    rows := rows + [JoinTexts(HEADERS)];
    for k := 0 to |r.items|
      invariant |rows| == |MetadataTable(r)| + 2 + k
      invariant PrintsRows(rows, table)
    {
      rows := rows + [JoinFields(ItemRow(r.items[k]))];
    }
    content := [BYTE_ORDER_MARK] + JoinRows(rows) + CRLF;
    MarkedTextReads(rows, table);
  }

  lemma {:induction false} GuardsDetermineFields(a: seq<Option<string>>, b: seq<Option<string>>)
    requires a != [] && GuardedFields(a) == GuardedFields(b)
    ensures b != [] && JoinFields(a) == JoinFields(b)
    decreases |a|
  {
    assert |a| == |GuardedFields(a)| == |b|;
    assert Guarded(a[0]) == GuardedFields(a)[0] == GuardedFields(b)[0] == Guarded(b[0]);
    if |a| > 1 {
      assert GuardedFields(a)[1..] == GuardedFields(a[1..]) && GuardedFields(b)[1..] == GuardedFields(b[1..]);
      GuardsDetermineFields(a[1..], b[1..]);
    }
  }

  lemma {:induction false} GuardsDetermineTable(a: seq<seq<Option<string>>>, b: seq<seq<Option<string>>>)
    requires IsTable(a) && IsTable(b) && GuardedTable(a) == GuardedTable(b)
    ensures PrintTable(a) == PrintTable(b)
    decreases |a|
  {
    if a != [] {
      assert b != [];
      assert GuardedTable(a)[0] == GuardedTable(b)[0];
      assert GuardedTable(a)[1..] == GuardedTable(a[1..]) && GuardedTable(b)[1..] == GuardedTable(b[1..]);
      GuardsDetermineFields(a[0], b[0]);
      GuardsDetermineTable(a[1..], b[1..]);
    } else {
      assert b == [];
    }
  }

  /** Two requests export to the same file exactly when a reader sees the same table in both. */
  lemma ExportsAgreeIffTablesAgree(a: Request, b: Request)
    ensures ExportText(a) == ExportText(b) <==> GuardedTable(RequestTable(a)) == GuardedTable(RequestTable(b))
  {
    TableRoundTrip(RequestTable(a));
    TableRoundTrip(RequestTable(b));
    if GuardedTable(RequestTable(a)) == GuardedTable(RequestTable(b)) {
      GuardsDetermineTable(RequestTable(a), RequestTable(b));
    }
    hide *;
    var before, after := RequestTable(a), RequestTable(b);
    assert ([BYTE_ORDER_MARK] + PrintTable(before))[1..] == PrintTable(before);
    assert ([BYTE_ORDER_MARK] + PrintTable(after))[1..] == PrintTable(after);
  }
}
