/** CSV export of the audit log (packages/core/src/audit/csv.ts), with a reader for RFC 4180 section 2. */
module AuditCsv {
  import opened Prelude
  import opened AuditProjection
  import opened AuditReader
  import opened AuditBounds
  import opened AuditPaging
  import opened AuditWalks

  // ---------------------------------------------------------------- fields and rows

  predicate IsFormulaChar(c: char) {
    c == '=' || c == '+' || c == '-' || c == '@' || c == '\t'
  }

  predicate StartsFormula(s: string) {
    s != "" && IsFormulaChar(s[0])
  }

  /** A leading quote stops a spreadsheet from reading the cell as a formula. */
  function Neutralise(value: string): string {
    if StartsFormula(value) then ['\''] + value else value
  }

  predicate NeedsQuotes(s: string) {
    ',' in s || '"' in s || '\n' in s || '\r' in s
  }

  /** `value.replace(/"/g, '""')`. */
  function DoubleQuotes(s: string): string {
    if s == "" then ""
    else (if s[0] == '"' then ['"', '"'] else [s[0]]) + DoubleQuotes(s[1..])
  }

  function Quote(s: string): string {
    ['"'] + (DoubleQuotes(s) + ['"'])
  }

  function EscapeCsvField(value: string): string {
    var s := Neutralise(value);
    if NeedsQuotes(s) then Quote(s) else s
  }

  function RowText(fields: seq<string>): string {
    if fields == [] then ""
    else if |fields| == 1 then EscapeCsvField(fields[0])
    else EscapeCsvField(fields[0]) + ([','] + RowText(fields[1..]))
  }

  /** Each row followed by a line feed, as the export route writes them. */
  function FileText(rows: seq<seq<string>>): string {
    if rows == [] then "" else RowText(rows[0]) + (['\n'] + FileText(rows[1..]))
  }

  // ---------------------------------------------------------------- a reader

  datatype Mode = Start | Bare | Quoted | QuoteSeen

  /** The field being read, the fields of its record so far, and the records before it. */
  datatype Reader = Reader(mode: Mode, field: string, record: seq<string>, records: seq<seq<string>>)

  const EMPTY := Reader(Start, "", [], [])

  function EndField(r: Reader): Reader {
    Reader(Start, "", r.record + [r.field], r.records)
  }

  function EndRecord(r: Reader): Reader {
    Reader(Start, "", [], r.records + [r.record + [r.field]])
  }

  /** Outside quotes a comma ends the field and a line break, CRLF or LF, the record; `""` inside quotes is a quote. */
  function Feed(r: Reader, c: char): Reader {
    match r.mode
    case Quoted => if c == '"' then r.(mode := QuoteSeen) else r.(field := r.field + [c])
    case QuoteSeen =>
      if c == '"' then r.(mode := Quoted, field := r.field + [c])
      else if c == ',' then EndField(r)
      else if c == '\n' then EndRecord(r)
      else if c == '\r' then r
      else r.(mode := Bare, field := r.field + [c])
    case _ =>
      if c == ',' then EndField(r)
      else if c == '\n' then EndRecord(r)
      else if c == '\r' then r
      else if c == '"' && r.mode == Start then r.(mode := Quoted)
      else r.(mode := Bare, field := r.field + [c])
  }

  function FeedAll(r: Reader, s: string): Reader
    decreases |s|
  {
    if s == "" then r else FeedAll(Feed(r, s[0]), s[1..])
  }

  /** The last record may or may not end with a line break. */
  function ReadCsv(text: string): seq<seq<string>> {
    var r := FeedAll(EMPTY, text);
    if r.record == [] && r.field == "" then r.records else r.records + [r.record + [r.field]]
  }

  lemma {:induction false} FeedConcat(r: Reader, a: string, b: string)
    ensures FeedAll(r, a + b) == FeedAll(FeedAll(r, a), b)
    decreases |a|
  {
    if a == "" {
      assert a + b == b;
    } else {
      assert (a + b)[1..] == a[1..] + b;
      FeedConcat(Feed(r, a[0]), a[1..], b);
    }
  }

  lemma FeedChar(r: Reader, c: char, s: string)
    ensures FeedAll(r, [c] + s) == FeedAll(Feed(r, c), s)
    ensures FeedAll(r, [c]) == Feed(r, c)
  {
    assert ([c] + s)[1..] == s;
    assert [c][1..] == "";
  }

  // ---------------------------------------------------------------- the reader undoes the writer

  lemma {:induction false} FeedBare(r: Reader, s: string)
    requires r.mode == Start || r.mode == Bare
    requires !NeedsQuotes(s)
    ensures FeedAll(r, s) == Reader(if s == "" then r.mode else Bare, r.field + s, r.record, r.records)
    decreases |s|
  {
    if s == "" {
      assert r.field + s == r.field;
    } else {
      assert s[0] in s && forall c :: c in s[1..] ==> c in s;
      FeedBare(Feed(r, s[0]), s[1..]);
      assert r.field + [s[0]] + s[1..] == r.field + s;
    }
  }

  /** One character, doubled if it is a quote, is read as itself. */
  lemma FeedHead(r: Reader, c: char, rest: string)
    requires r.mode == Quoted
    ensures FeedAll(r, (if c == '"' then ['"', '"'] else [c]) + rest) == FeedAll(r.(field := r.field + [c]), rest)
  {
    if c == '"' {
      assert ['"', '"'] + rest == ['"'] + (['"'] + rest);
      FeedChar(r, '"', ['"'] + rest);
      FeedChar(r.(mode := QuoteSeen), '"', rest);
    } else {
      FeedChar(r, c, rest);
    }
  }

  lemma {:induction false} FeedDoubled(r: Reader, s: string)
    requires r.mode == Quoted
    ensures FeedAll(r, DoubleQuotes(s)) == r.(field := r.field + s)
    decreases |s|
  {
    if s == "" {
      assert r.field + s == r.field;
    } else {
      FeedHead(r, s[0], DoubleQuotes(s[1..]));
      FeedDoubled(r.(field := r.field + [s[0]]), s[1..]);
      assert r.field + [s[0]] + s[1..] == r.field + s;
    }
  }

  /** Reading one written field, whatever it contains, yields its neutralised text and stays in the record. */
  lemma FeedField(r: Reader, value: string)
    requires r.mode == Start && r.field == ""
    ensures var r' := FeedAll(r, EscapeCsvField(value));
            r'.mode != Quoted && r'.field == Neutralise(value) && r'.record == r.record && r'.records == r.records
  {
    var s := Neutralise(value);
    if NeedsQuotes(s) {
      FeedChar(r, '"', DoubleQuotes(s) + ['"']);
      FeedConcat(r.(mode := Quoted), DoubleQuotes(s), ['"']);
      FeedDoubled(r.(mode := Quoted), s);
      FeedChar(r.(mode := Quoted, field := "" + s), '"', "");
      assert "" + s == s;
    } else {
      FeedBare(r, s);
      assert "" + s == s;
    }
  }

  function NeutraliseAll(fields: seq<string>): seq<string> {
    if fields == [] then [] else [Neutralise(fields[0])] + NeutraliseAll(fields[1..])
  }

  function NeutraliseRows(rows: seq<seq<string>>): seq<seq<string>> {
    if rows == [] then [] else [NeutraliseAll(rows[0])] + NeutraliseRows(rows[1..])
  }

  lemma Shift<T>(a: seq<T>, x: T, rest: seq<T>)
    ensures a + [x] + rest == a + ([x] + rest)
    ensures a + [] == a && [] + a == a
  {
  }

  lemma {:induction false} FeedRow(r: Reader, fields: seq<string>)
    requires r.mode == Start && r.field == "" && fields != []
    ensures FeedAll(r, RowText(fields) + ['\n']) == Reader(Start, "", [], r.records + [r.record + NeutraliseAll(fields)])
    decreases |fields|
  {
    FeedField(r, fields[0]);
    var r' := FeedAll(r, EscapeCsvField(fields[0]));
    if |fields| == 1 {
      FeedConcat(r, EscapeCsvField(fields[0]), ['\n']);
      FeedChar(r', '\n', "");
      Nothing([Neutralise(fields[0])]);
      assert NeutraliseAll(fields) == [Neutralise(fields[0])];
    } else {
      FeedFirst(r, fields);
      FeedRow(EndField(r'), fields[1..]);
      Shift(r.record, Neutralise(fields[0]), NeutraliseAll(fields[1..]));
    }
  }

  lemma FeedFirst(r: Reader, fields: seq<string>)
    requires |fields| > 1 && FeedAll(r, EscapeCsvField(fields[0])).mode != Quoted
    ensures FeedAll(r, RowText(fields) + ['\n']) == FeedAll(EndField(FeedAll(r, EscapeCsvField(fields[0]))), RowText(fields[1..]) + ['\n'])
  {
    var first, rest := EscapeCsvField(fields[0]), RowText(fields[1..]) + ['\n'];
    assert RowText(fields) + ['\n'] == first + ([','] + rest);
    FeedConcat(r, first, [','] + rest);
    FeedChar(FeedAll(r, first), ',', rest);
  }

  lemma {:induction false} FeedRows(records: seq<seq<string>>, rows: seq<seq<string>>)
    requires forall i :: 0 <= i < |rows| ==> rows[i] != []
    ensures FeedAll(Reader(Start, "", [], records), FileText(rows)) == Reader(Start, "", [], records + NeutraliseRows(rows))
    decreases |rows|
  {
    if rows == [] {
      Shift(records, [], []);
    } else {
      var r := Reader(Start, "", [], records);
      assert FileText(rows) == (RowText(rows[0]) + ['\n']) + FileText(rows[1..]);
      FeedConcat(r, RowText(rows[0]) + ['\n'], FileText(rows[1..]));
      FeedRow(r, rows[0]);
      Shift(NeutraliseAll(rows[0]), "", []);
      FeedRows(records + [NeutraliseAll(rows[0])], rows[1..]);
      Shift(records, NeutraliseAll(rows[0]), NeutraliseRows(rows[1..]));
    }
  }

  lemma {:induction false} NeutraliseAllAt(fields: seq<string>)
    ensures |NeutraliseAll(fields)| == |fields|
    ensures forall j :: 0 <= j < |fields| ==> NeutraliseAll(fields)[j] == Neutralise(fields[j])
  {
    if fields != [] {
      NeutraliseAllAt(fields[1..]);
    }
  }

  lemma {:induction false} NeutraliseRowsAt(rows: seq<seq<string>>)
    ensures |NeutraliseRows(rows)| == |rows|
    ensures forall i :: 0 <= i < |rows| ==> NeutraliseRows(rows)[i] == NeutraliseAll(rows[i])
  {
    if rows != [] {
      NeutraliseRowsAt(rows[1..]);
    }
  }

  /**
   * An RFC 4180 reader recovers every record of the file, row for row and column for column: embedded
   * quotes, commas and line breaks shift nothing. No recovered field starts a formula.
   */
  lemma ReaderUndoesWriter(rows: seq<seq<string>>)
    requires forall i :: 0 <= i < |rows| ==> rows[i] != []
    ensures var back := ReadCsv(FileText(rows));
            && |back| == |rows|
            && forall i :: 0 <= i < |rows| ==> NeutralisedRow(rows[i], back[i])
  {
    FeedRows([], rows);
    Shift(NeutraliseRows(rows), [], []);
    NeutraliseRowsAt(rows);
    assert ReadCsv(FileText(rows)) == NeutraliseRows(rows);
    forall i | 0 <= i < |rows|
      ensures NeutralisedRow(rows[i], NeutraliseAll(rows[i]))
    {
      RowNeutralised(rows[i]);
    }
  }

  lemma RowNeutralised(row: seq<string>)
    ensures NeutralisedRow(row, NeutraliseAll(row))
  {
    NeutraliseAllAt(row);
    forall j | 0 <= j < |row|
      ensures IsCell(NeutraliseAll(row)[j], row[j])
    {
      NeutraliseSafe(row[j]);
    }
  }

  lemma NeutraliseSafe(value: string)
    ensures IsCell(Neutralise(value), value)
  {
  }

  /** The cell that is read for a value: a quote in front of one that a spreadsheet would take for a formula. */
  ghost predicate IsCell(cell: string, value: string) {
    cell == if value != "" && value[0] in {'=', '+', '-', '@', '\t'} then "'" + value else value
  }

  /** Field by field, a row as its reader may see it. */
  ghost predicate NeutralisedRow(row: seq<string>, back: seq<string>) {
    && |back| == |row|
    && forall j :: 0 <= j < |row| ==> IsCell(back[j], row[j])
  }

  /** The original records come back unchanged exactly when no field starts like a formula. */
  lemma ReaderIsExactInverse(rows: seq<seq<string>>)
    requires forall i :: 0 <= i < |rows| ==> rows[i] != []
    ensures ReadCsv(FileText(rows)) == rows <==> forall i, j :: 0 <= i < |rows| && 0 <= j < |rows[i]| ==> !StartsFormula(rows[i][j])
  {
    ReaderUndoesWriter(rows);
    var back := ReadCsv(FileText(rows));
    if forall i, j :: 0 <= i < |rows| && 0 <= j < |rows[i]| ==> !StartsFormula(rows[i][j]) {
      forall i | 0 <= i < |rows|
        ensures back[i] == rows[i]
      {
      }
    }
  }

  // ---------------------------------------------------------------- the export

  const CSV_HEADER :=
    "timestamp_utc" + ([','] + ("event_type" + ([','] + ("actor" + ([','] + ("actor_type" + ([','] + ("scope" + ([','] +
    ("run_id" + ([','] + ("issue_id" + ([','] + ("input_tokens" + ([','] + ("output_tokens" + ([','] + "payload_json")))))))))))))))))
  const MAX_PAGES: nat := 100000

  /** `toISOString`, `String` on a number and `JSON.stringify` are parameters. */
  datatype Formats = Formats(iso: int -> string, number: int -> string, json: Payload -> string)

  function OrEmpty(s: Option<string>): string {
    if s.Some? then s.value else ""
  }

  function EventFields(e: AuditEvent, fmt: Formats): seq<string> {
    [fmt.iso(e.timestamp), e.eventType, e.actor, e.actorType, OrEmpty(e.scope), OrEmpty(e.runId), OrEmpty(e.issueId),
     fmt.number(e.inputTokens), fmt.number(e.outputTokens), fmt.json(e.payload)]
  }

  function EventRows(es: seq<AuditEvent>, fmt: Formats): seq<string> {
    seq(|es|, i requires 0 <= i < |es| => RowText(EventFields(es[i], fmt)))
  }

  /** The events that the export shows from a cursor on. */
  function Shown(query: Option<Cursor> -> Fetched, f: Filters, cursor: Option<Cursor>, limit: nat, pages: nat): seq<AuditEvent>
    requires limit > 0
  {
    Walk(Fetches(query, f, cursor, limit, pages), f, cursor, limit)
  }

  lemma ShownNext(query: Option<Cursor> -> Fetched, f: Filters, cursor: Option<Cursor>, limit: nat, pages: nat)
    requires limit > 0 && pages > 0
    ensures var (page, next) := Page(query(cursor), f, cursor, limit);
            Shown(query, f, cursor, limit, pages) == if next.None? then page else page + Shown(query, f, next, limit, pages - 1)
  {
    var (page, next) := Page(query(cursor), f, cursor, limit);
    Nothing(page);
    FetchesNext(query, f, cursor, limit, pages);
  }

  /** The export asks for the pages of a legal walk, which ended unless the page cap stopped it. */
  lemma ExportWalks(db: Db, query: Option<Cursor> -> Fetched, f: Filters, limit: nat, pages: nat)
    requires limit > 0 && forall c :: Answers(db, f, limit)(query(c), c)
    ensures var fetches := Fetches(query, f, None, limit, pages);
            Legal(db, fetches, f, None, limit) && (Finished(fetches, f, None, limit) || |fetches| == pages)
  {
    FetchesAnswered(Answers(db, f, limit), query, f, None, limit, pages);
  }

  lemma Nothing<T>(a: seq<T>)
    ensures a + [] == a == [] + a
  {
  }

  lemma Regroup<T>(a: seq<T>, b: seq<T>, c: seq<T>)
    ensures a + (b + c) == (a + b) + c
  {
  }

  /** `Math.min(filters.limit ?? 50, 500)` for an explicit limit. */
  function PageLimit(n: nat): nat {
    if n < 500 then n else 500
  }

  /** The export loop over a fixed database: `query` gives the fetched rows for each cursor. */
  method StreamAuditCsv(query: Option<Cursor> -> Fetched, f: Filters, pageSize: nat, fmt: Formats) returns (lines: seq<string>)
    requires pageSize > 0
    ensures lines == [CSV_HEADER] + EventRows(Shown(query, f, None, if pageSize < 500 then pageSize else 500, 100_001), fmt)
    ensures FileShows(lines, Shown(query, f, None, if pageSize < 500 then pageSize else 500, 100_001), fmt)
  {
    var limit := PageLimit(pageSize);
    lines := [CSV_HEADER];
    var cursor: Option<Cursor> := None;
    var pages := 0;
    while true
      invariant pages <= MAX_PAGES
      invariant lines + EventRows(Shown(query, f, cursor, limit, MAX_PAGES + 1 - pages), fmt)
             == [CSV_HEADER] + EventRows(Shown(query, f, None, limit, MAX_PAGES + 1), fmt)
      decreases MAX_PAGES - pages
    {
      var (events, nextCursor) := Page(query(cursor), f, cursor, limit);
      ShownNext(query, f, cursor, limit, MAX_PAGES + 1 - pages);
      if nextCursor.Some? {
        RowsAfter(lines, events, Shown(query, f, nextCursor, limit, MAX_PAGES - pages), fmt);
      }
      lines := YieldRows(lines, events, fmt);
      if nextCursor.None? || |events| == 0 {
        break;
      }
      cursor := nextCursor;
      pages := pages + 1;
      if pages > MAX_PAGES {
        Nothing(lines);
        break;
      }
    }
    ghost var es := Shown(query, f, None, limit, MAX_PAGES + 1);
    assert FileShows(lines, es, fmt) by {
      ExportReads(es, fmt);
    }
  }

  lemma RowsAfter(lines: seq<string>, events: seq<AuditEvent>, rest: seq<AuditEvent>, fmt: Formats)
    ensures lines + EventRows(events + rest, fmt) == (lines + EventRows(events, fmt)) + EventRows(rest, fmt)
  {
    RowsConcat(events, rest, fmt);
    Regroup(lines, EventRows(events, fmt), EventRows(rest, fmt));
  }

  method YieldRows(lines: seq<string>, events: seq<AuditEvent>, fmt: Formats) returns (out: seq<string>)
    ensures out == lines + EventRows(events, fmt)
  {
    out := lines;
    for i := 0 to |events|
      invariant out == lines + EventRows(events[..i], fmt)
    {
      out := out + [RowText(EventFields(events[i], fmt))];
      assert EventRows(events[..i + 1], fmt) == EventRows(events[..i], fmt) + [RowText(EventFields(events[i], fmt))];
    }
    assert events[..|events|] == events;
  }

  lemma RowsConcat(a: seq<AuditEvent>, b: seq<AuditEvent>, fmt: Formats)
    ensures EventRows(a + b, fmt) == EventRows(a, fmt) + EventRows(b, fmt)
  {
  }

  /**
   * End to end: under the bounds, and with fewer events than the page cap, the export is newest first and shows exactly
   * the matching events, if and only if none of them straddles `from`.
   */
  lemma ExportExact(db: Db, query: Option<Cursor> -> Fetched, f: Filters, limit: nat)
    requires Keyed(db) && limit > 0 && (forall c :: Answers(db, f, limit)(query(c), c))
    requires Bounds(db, f, limit) && |Merged(db)| < MAX_PAGES
    ensures NewestFirst(Shown(query, f, None, limit, MAX_PAGES + 1))
    ensures ShowsAll(db, Shown(query, f, None, limit, MAX_PAGES + 1), f) <==> NoneStraddles(db, f)
  {
    ExportWalks(db, query, f, limit, MAX_PAGES + 1);
    WalkTerminates(db, Fetches(query, f, None, limit, MAX_PAGES + 1), f, None, limit);
    WalkExact(db, Fetches(query, f, None, limit, MAX_PAGES + 1), f, limit);
  }

  // ---------------------------------------------------------------- reading the export back

  const HEADER_FIELDS := ["timestamp_utc", "event_type", "actor", "actor_type", "scope", "run_id", "issue_id",
                          "input_tokens", "output_tokens", "payload_json"]

  /** What the route sends: each line with a line feed. */
  function Sent(lines: seq<string>): string {
    if lines == [] then "" else lines[0] + (['\n'] + Sent(lines[1..]))
  }

  function FieldRows(es: seq<AuditEvent>, fmt: Formats): seq<seq<string>> {
    seq(|es|, i requires 0 <= i < |es| => EventFields(es[i], fmt))
  }

  predicate Plain(field: string) {
    !NeedsQuotes(field) && !StartsFormula(field)
  }

  lemma PlainHeader()
    ensures forall i :: 0 <= i < |HEADER_FIELDS| ==> Plain(HEADER_FIELDS[i])
  {
    var h := HEADER_FIELDS;
    assert Plain(h[0]);
    assert Plain(h[1]);
    assert Plain(h[2]);
    assert Plain(h[3]);
    assert Plain(h[4]);
    assert Plain(h[5]);
    assert Plain(h[6]);
    assert Plain(h[7]);
    assert Plain(h[8]);
    assert Plain(h[9]);
  }

  /** The fields joined by commas. */
  function Joined(fields: seq<string>): string {
    if fields == [] then "" else if |fields| == 1 then fields[0] else fields[0] + ([','] + Joined(fields[1..]))
  }

  lemma {:induction false} PlainRowText(fields: seq<string>)
    requires forall i :: 0 <= i < |fields| ==> Plain(fields[i])
    ensures RowText(fields) == Joined(fields)
  {
    if |fields| > 1 {
      PlainRowText(fields[1..]);
    }
  }

  lemma JoinedNext(fields: seq<string>, k: nat)
    requires k + 1 < |fields|
    ensures Joined(fields[k..]) == fields[k] + ([','] + Joined(fields[k + 1..]))
  {
    assert fields[k..][1..] == fields[k + 1..];
  }

  lemma HeaderIsRow()
    ensures RowText(HEADER_FIELDS) == CSV_HEADER
  {
    var h := HEADER_FIELDS;
    PlainHeader();
    PlainRowText(h);
    assert h[9..] == [h[9]] && h[0..] == h;
    JoinedNext(h, 8);
    JoinedNext(h, 7);
    JoinedNext(h, 6);
    JoinedNext(h, 5);
    JoinedNext(h, 4);
    JoinedNext(h, 3);
    JoinedNext(h, 2);
    JoinedNext(h, 1);
    JoinedNext(h, 0);
  }

  lemma {:induction false} SentRows(es: seq<AuditEvent>, fmt: Formats)
    ensures Sent(EventRows(es, fmt)) == FileText(FieldRows(es, fmt))
  {
    if es != [] {
      SentRows(es[1..], fmt);
      assert EventRows(es, fmt)[1..] == EventRows(es[1..], fmt);
      assert FieldRows(es, fmt)[1..] == FieldRows(es[1..], fmt);
    }
  }

  lemma SentFile(es: seq<AuditEvent>, fmt: Formats)
    ensures Sent([CSV_HEADER] + EventRows(es, fmt)) == FileText([HEADER_FIELDS] + FieldRows(es, fmt))
  {
    HeaderIsRow();
    SentRows(es, fmt);
    assert ([CSV_HEADER] + EventRows(es, fmt))[1..] == EventRows(es, fmt);
    assert ([HEADER_FIELDS] + FieldRows(es, fmt))[1..] == FieldRows(es, fmt);
  }

  /** The record shows the value in the column of that name. */
  ghost predicate Column(header: seq<string>, record: seq<string>, name: string, value: string) {
    exists j :: 0 <= j < |header| && j < |record| && header[j] == name && IsCell(record[j], value)
  }

  ghost predicate ShowsEvent(header: seq<string>, record: seq<string>, e: AuditEvent, fmt: Formats) {
    && |record| == |header|
    && Column(header, record, "timestamp_utc", fmt.iso(e.timestamp))
    && Column(header, record, "event_type", e.eventType)
    && Column(header, record, "actor", e.actor)
    && Column(header, record, "actor_type", e.actorType)
    && Column(header, record, "scope", if e.scope.Some? then e.scope.value else "")
    && Column(header, record, "run_id", if e.runId.Some? then e.runId.value else "")
    && Column(header, record, "issue_id", if e.issueId.Some? then e.issueId.value else "")
    && Column(header, record, "input_tokens", fmt.number(e.inputTokens))
    && Column(header, record, "output_tokens", fmt.number(e.outputTokens))
    && Column(header, record, "payload_json", fmt.json(e.payload))
  }

  /** What a reader of the file sees. */
  ghost predicate FileShows(lines: seq<string>, es: seq<AuditEvent>, fmt: Formats) {
    var back := ReadCsv(Sent(lines));
    && |back| == |es| + 1 && |back[0]| == 10 && NoRepeats(back[0])
    && forall i :: 0 <= i < |es| ==> ShowsEvent(back[0], back[i + 1], es[i], fmt)
  }

  /**
   * A reader of the exported file sees a header of ten different names, and then for each event shown one record with its fields
   * in their columns, neutralised: no comma, quote or line break in a field shifts a column or a row.
   */
  lemma ExportReads(es: seq<AuditEvent>, fmt: Formats)
    ensures FileShows([CSV_HEADER] + EventRows(es, fmt), es, fmt)
  {
    var back := ReadCsv(Sent([CSV_HEADER] + EventRows(es, fmt)));
    SentFile(es, fmt);
    PlainHeader();
    FileReads(HEADER_FIELDS, es, fmt);
    NamesDiffer(HEADER_FIELDS);
    forall i | 0 <= i < |es|
      ensures ShowsEvent(back[0], back[i + 1], es[i], fmt)
    {
      FieldsInColumns(HEADER_FIELDS, back[i + 1], es[i], fmt);
    }
  }

  /** Two of the names differ in their length or in their first letter. */
  lemma NamesDiffer(h: seq<string>)
    requires h == HEADER_FIELDS
    ensures NoRepeats(h)
  {
    assert |h[0]| == 13 && |h[1]| == 10 && |h[2]| == 5 && |h[3]| == 10 && |h[4]| == 5
        && |h[5]| == 6 && |h[6]| == 8 && |h[7]| == 12 && |h[8]| == 13 && |h[9]| == 12;
    assert h[0][0] == 't' && h[1][0] == 'e' && h[2][0] == 'a' && h[3][0] == 'a' && h[4][0] == 's' && h[7][0] == 'i' && h[8][0] == 'o' && h[9][0] == 'p';
  }

  lemma FieldsInColumns(header: seq<string>, record: seq<string>, e: AuditEvent, fmt: Formats)
    requires header == HEADER_FIELDS && NeutralisedRow(EventFields(e, fmt), record)
    ensures ShowsEvent(header, record, e, fmt)
  {
    assert header[0] == "timestamp_utc" && header[1] == "event_type" && header[2] == "actor" && header[3] == "actor_type" && header[4] == "scope";
    assert header[5] == "run_id" && header[6] == "issue_id" && header[7] == "input_tokens" && header[8] == "output_tokens"
        && header[9] == "payload_json";
  }

  lemma FileReads(header: seq<string>, es: seq<AuditEvent>, fmt: Formats)
    requires header != [] && forall i :: 0 <= i < |header| ==> Plain(header[i])
    ensures var back := ReadCsv(FileText([header] + FieldRows(es, fmt)));
            && |back| == |es| + 1 && back[0] == header
            && forall i :: 0 <= i < |es| ==> NeutralisedRow(EventFields(es[i], fmt), back[i + 1])
  {
    var rows := [header] + FieldRows(es, fmt);
    assert forall i :: 0 <= i < |es| ==> rows[i + 1] == EventFields(es[i], fmt) && rows[i + 1] != [];
    ReaderUndoesWriter(rows);
    PlainBack(header, ReadCsv(FileText(rows))[0]);
  }

  lemma PlainBack(fields: seq<string>, back: seq<string>)
    requires NeutralisedRow(fields, back) && forall i :: 0 <= i < |fields| ==> Plain(fields[i])
    ensures back == fields
  {
  }
}
