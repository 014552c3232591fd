/** 01-local-server/server.py: a local stand-in for the logging service. Every /log
    request becomes one JSON line appended to a raw log; the whole log is then turned
    into a CSV table whose header is the sorted union of all keys. */
module LocalServer {
  import opened Common

  /** One logged record: the parameters of a request, as key/value text. */
  type Record = map<string, string>

  // Text as a sequence of lines.

  /** Lines each followed by "\n": the text of a file written line by line. */
  function Lines(ls: seq<string>): string {
    if ls == [] then [] else ls[0] + "\n" + Lines(ls[1..])
  }

  lemma {:induction false} LinesSnoc(ls: seq<string>, x: string)
    ensures Lines(ls + [x]) == Lines(ls) + x + "\n"
  {
    if ls != [] {
      assert (ls + [x])[1..] == ls[1..] + [x];
      LinesSnoc(ls[1..], x);
    } else {
      assert Lines([x]) == x + "\n" + Lines([]);
    }
  }

  /** The text of lines is their join with "\n" after one more, empty, line. */
  lemma {:induction false} LinesAsJoin(ls: seq<string>)
    ensures Lines(ls) == Join(ls + [""], "\n")
  {
    if ls != [] {
      LinesAsJoin(ls[1..]);
      assert (ls + [""])[1..] == ls[1..] + [""];
    }
  }

  /** Splitting the text of lines at "\n" gives the lines back, and one empty piece
      after the last "\n". */
  lemma SplitLines(ls: seq<string>)
    requires forall i :: 0 <= i < |ls| ==> '\n' !in ls[i]
    ensures Split(Lines(ls), '\n') == ls + [""]
  {
    LinesAsJoin(ls);
    SplitJoin(ls + [""], '\n');
  }

  lemma {:induction false} JoinAvoids(parts: seq<string>, sep: string, c: char)
    requires c !in sep && forall i :: 0 <= i < |parts| ==> c !in parts[i]
    ensures c !in Join(parts, sep)
  {
    if |parts| > 1 {
      JoinAvoids(parts[1..], sep, c);
    }
  }

  /** A join starts with the first part and ends with the last. */
  lemma {:induction false} JoinEnds(parts: seq<string>, sep: string)
    requires parts != []
    ensures |Join(parts, sep)| >= |parts[0]| && Join(parts, sep)[..|parts[0]|] == parts[0]
    ensures |Join(parts, sep)| >= |parts[|parts| - 1]|
            && Join(parts, sep)[|Join(parts, sep)| - |parts[|parts| - 1]|..] == parts[|parts| - 1]
  {
    if |parts| > 1 {
      JoinEnds(parts[1..], sep);
      var rest := Join(parts[1..], sep);
      assert Join(parts, sep) == parts[0] + sep + rest;
      var j := Join(parts, sep);
      var last := parts[|parts| - 1];
      assert j[|j| - |last|..] == rest[|rest| - |last|..];
    }
  }

  // to_csv

  /** data.strip().split('\n'). */
  function LogLines(data: string): seq<string> {
    Split(Strip(data), '\n')
  }

  /** The record of one line, if it parses: the try/except around json.loads on the
      stripped line. */
  function ParsedLine(line: string, parse: string -> Option<Record>): seq<Record> {
    match parse(Strip(line))
    case Some(rec) => [rec]
    case None => []
  }

  /** The records of the lines that parse as JSON objects, in log order; `parse`
      stands for json.loads on a stripped line and answers None where it raises. */
  function ParsedRecords(lines: seq<string>, parse: string -> Option<Record>): (r: seq<Record>)
    ensures |r| <= |lines|
  {
    if lines == [] then []
    else ParsedLine(lines[0], parse) + ParsedRecords(lines[1..], parse)
  }

  /** A record is in the parsed log exactly when some line of the log parses to it. */
  lemma {:induction false} ParsedRecordsMembers(lines: seq<string>, parse: string -> Option<Record>)
    ensures forall rec :: rec in ParsedRecords(lines, parse)
                          <==> exists i :: 0 <= i < |lines| && parse(Strip(lines[i])) == Some(rec)
  {
    if lines != [] {
      ParsedRecordsMembers(lines[1..], parse);
      forall rec
        ensures rec in ParsedRecords(lines, parse)
                <==> exists i :: 0 <= i < |lines| && parse(Strip(lines[i])) == Some(rec)
      {
        if i :| 1 <= i < |lines| && parse(Strip(lines[i])) == Some(rec) {
          assert lines[1..][i - 1] == lines[i];
        }
      }
    }
  }

  lemma {:induction false} ParsedRecordsAppend(a: seq<string>, b: seq<string>, parse: string -> Option<Record>)
    ensures ParsedRecords(a + b, parse) == ParsedRecords(a, parse) + ParsedRecords(b, parse)
  {
    if a == [] {
      assert a + b == b;
    } else {
      assert (a + b)[1..] == a[1..] + b;
      ParsedRecordsAppend(a[1..], b, parse);
    }
  }

  /** A line that does not parse is skipped: the records, and so every row, are those
      of the log without it. */
  lemma MalformedLineSkipped(a: seq<string>, bad: string, b: seq<string>, parse: string -> Option<Record>)
    requires parse(Strip(bad)) == None
    ensures ParsedRecords(a + [bad] + b, parse) == ParsedRecords(a + b, parse)
  {
    assert ParsedLine(bad, parse) == [];
    assert ([bad] + b)[1..] == b;
    assert ParsedRecords([bad] + b, parse) == ParsedRecords(b, parse);
    assert a + [bad] + b == a + ([bad] + b);
    ParsedRecordsAppend(a, [bad] + b, parse);
    ParsedRecordsAppend(a, b, parse);
  }

  /** set().union(*(d.keys() for d in records)). */
  function AllKeys(records: seq<Record>): (ks: set<string>)
    ensures forall k :: k in ks <==> exists i :: 0 <= i < |records| && k in records[i]
  {
    if records == [] then {}
    else
      var rest := AllKeys(records[1..]);
      assert forall i :: 1 <= i < |records| ==> records[i] == records[1..][i - 1];
      records[0].Keys + rest
  }

  /** sorted(...) of the key union: every key once, in increasing order. */
  ghost function Header(records: seq<Record>): seq<string> {
    LexLessIsStrictTotalOrder();
    SortedSet(AllKeys(records), LexLess)
  }

  /** The header is the only strictly increasing sequence of exactly the keys that
      occur in some record. */
  lemma HeaderIsSortedUnion(records: seq<Record>, h: seq<string>)
    requires StrictlySorted(h, LexLess)
    requires forall k :: k in h <==> exists i :: 0 <= i < |records| && k in records[i]
    ensures h == Header(records)
  {
    LexLessIsStrictTotalOrder();
    StrictlySortedUnique(h, Header(records), LexLess);
  }

  /** [row.get(key, '') for key in header]. */
  function Row(header: seq<string>, rec: Record): (r: seq<string>)
    ensures |r| == |header|
  {
    seq(|header|, k requires 0 <= k < |header| => if header[k] in rec then rec[header[k]] else "")
  }

  /** The field under `key` in a row: the first column with that name. */
  function Lookup(header: seq<string>, row: seq<string>, key: string): string
    requires |row| == |header|
  {
    if header == [] then ""
    else if header[0] == key then row[0]
    else Lookup(header[1..], row[1..], key)
  }

  /** Reading a row back as a record: the non-blank fields under their column names. */
  function FromRow(header: seq<string>, row: seq<string>): Record
    requires |row| == |header|
  {
    map k | k in header && Lookup(header, row, k) != "" :: Lookup(header, row, k)
  }

  lemma {:induction false} LookupRow(header: seq<string>, rec: Record, key: string)
    requires key in header
    ensures Lookup(header, Row(header, rec), key) == if key in rec then rec[key] else ""
  {
    if header[0] != key {
      assert Row(header, rec)[1..] == Row(header[1..], rec);
      LookupRow(header[1..], rec, key);
    }
  }

  /** A row loses nothing of its record but the blank values: read back under the
      header, it gives the record without them. */
  lemma RowRoundTrip(header: seq<string>, rec: Record)
    requires forall k :: k in rec ==> k in header
    ensures FromRow(header, Row(header, rec)) == map k | k in rec && rec[k] != "" :: rec[k]
  {
    forall k | k in header {
      LookupRow(header, rec, k);
    }
  }

  /** One row per record, in order. */
  function RowsOf(header: seq<string>, records: seq<Record>): (rows: seq<seq<string>>)
    ensures |rows| == |records|
    ensures forall i :: 0 <= i < |rows| ==> |rows[i]| == |header|
  {
    seq(|records|, i requires 0 <= i < |records| => Row(header, records[i]))
  }

  /** The table: the header, then one row per record in log order. */
  ghost function Table(records: seq<Record>): (t: seq<seq<string>>)
    ensures |t| == |records| + 1 && t[0] == Header(records)
    ensures forall i :: 1 <= i < |t| ==> |t[i]| == |Header(records)|
  {
    [Header(records)] + RowsOf(Header(records), records)
  }

  /** Each row as one line: its fields joined by ", ", then "\n". */
  function CsvText(rows: seq<seq<string>>): string {
    if rows == [] then []
    else CsvText(rows[..|rows| - 1]) + Join(rows[|rows| - 1], ", ") + "\n"
  }

  /** What to_csv returns for the log text `data`. */
  ghost function CsvOf(data: string, parse: string -> Option<Record>): string {
    CsvText(Table(ParsedRecords(LogLines(data), parse)))
  }

  /** When no line parses, the CSV is a single empty header line. */
  lemma NothingParsedIsEmptyHeader(data: string, parse: string -> Option<Record>)
    requires ParsedRecords(LogLines(data), parse) == []
    ensures CsvOf(data, parse) == "\n"
  {
    EmptyTable();
  }

  lemma EmptyTable()
    ensures CsvText(Table([])) == "\n"
  {
    var t := Table([]);
    assert t == [[]];
    assert t[..0] == [];
  }

  lemma {:induction false} CsvTextAsLines(rows: seq<seq<string>>)
    ensures CsvText(rows) == Lines(seq(|rows|, i requires 0 <= i < |rows| => Join(rows[i], ", ")))
  {
    if rows != [] {
      var n := |rows|;
      CsvTextAsLines(rows[..n - 1]);
      var init := seq(n - 1, i requires 0 <= i < n - 1 => Join(rows[..n - 1][i], ", "));
      LinesSnoc(init, Join(rows[n - 1], ", "));
      assert init + [Join(rows[n - 1], ", ")]
             == seq(|rows|, i requires 0 <= i < |rows| => Join(rows[i], ", "));
    }
  }

  /** The CSV splits at "\n" into one line per row (the header line first, then the
      records in order), each the row's fields joined by ", ", and nothing after the
      final "\n". */
  lemma CsvLines(rows: seq<seq<string>>)
    requires forall i, j :: 0 <= i < |rows| && 0 <= j < |rows[i]| ==> '\n' !in rows[i][j]
    ensures Split(CsvText(rows), '\n')
            == seq(|rows|, i requires 0 <= i < |rows| => Join(rows[i], ", ")) + [""]
  {
    CsvTextAsLines(rows);
    var ls := seq(|rows|, i requires 0 <= i < |rows| => Join(rows[i], ", "));
    forall i | 0 <= i < |rows| ensures '\n' !in ls[i] {
      JoinAvoids(rows[i], ", ", '\n');
    }
    SplitLines(ls);
  }

  /** sorted(set().union(...)): the keys are taken one at a time into a strictly
      increasing sequence. */
  method SortedKeys(records: seq<Record>) returns (header: seq<string>)
    ensures header == Header(records)
  {
    LexLessIsStrictTotalOrder();
    var keys := AllKeys(records);
    var rest := keys;
    header := [];
    while rest != {}
      invariant rest <= keys
      invariant StrictlySorted(header, LexLess)
      invariant forall k :: k in header <==> k in keys && k !in rest
      decreases |rest|
    {
      var k :| k in rest;
      header := InsertSorted(k, header, LexLess);
      rest := rest - {k};
    }
    HeaderIsSortedUnion(records, header);
  }

  lemma ParsedRecordsStep(lines: seq<string>, i: nat, parse: string -> Option<Record>)
    requires i < |lines|
    ensures ParsedRecords(lines[i..], parse) == ParsedLine(lines[i], parse) + ParsedRecords(lines[i + 1..], parse)
  {
    assert lines[i..][1..] == lines[i + 1..];
  }

  /** The loop of to_csv over the log lines: each line that parses adds its record. */
  method ParseLines(lines: seq<string>, parse: string -> Option<Record>) returns (records: seq<Record>)
    ensures records == ParsedRecords(lines, parse)
  {
    records := [];
    var i := 0;
    while i < |lines|
      invariant 0 <= i <= |lines|
      invariant records + ParsedRecords(lines[i..], parse) == ParsedRecords(lines, parse)
    {
      ParsedRecordsStep(lines, i, parse);
      var line := ParsedLine(lines[i], parse);
      assert (records + line) + ParsedRecords(lines[i + 1..], parse) == ParsedRecords(lines, parse) by {
        assert (records + line) + ParsedRecords(lines[i + 1..], parse) == records + (line + ParsedRecords(lines[i + 1..], parse));
      }
      records := records + line;
      i := i + 1;
    }
  }

  /** The loop of to_csv that lays out the table: the header row, then one row per
      record. */
  method Tabulate(header: seq<string>, records: seq<Record>) returns (table: seq<seq<string>>)
    ensures table == [header] + RowsOf(header, records)
  {
    table := [header];
    var j := 0;
    while j < |records|
      invariant 0 <= j <= |records|
      invariant table == [header] + RowsOf(header, records[..j])
    {
      assert RowsOf(header, records[..j + 1]) == RowsOf(header, records[..j]) + [Row(header, records[j])];
      table := table + [Row(header, records[j])];
      j := j + 1;
    }
    assert records[..j] == records;
  }

  /** The loop of to_csv that writes the text, one line per row. */
  method WriteRows(table: seq<seq<string>>) returns (csv: string)
    ensures csv == CsvText(table)
  {
    csv := "";
    var r := 0;
    while r < |table|
      invariant 0 <= r <= |table|
      invariant csv == CsvText(table[..r])
    {
      assert table[..r + 1][..r] == table[..r];
      csv := csv + Join(table[r], ", ") + "\n";
      r := r + 1;
    }
    assert table[..r] == table;
  }

  /** to_csv: parse every line, build the header and the rows, write each row. */
  method ToCsv(data: string, parse: string -> Option<Record>) returns (csv: string)
    ensures csv == CsvOf(data, parse)
  {
    var records := ParseLines(LogLines(data), parse);
    var header := SortedKeys(records);
    var table := Tabulate(header, records);
    csv := WriteRows(table);
  }

  // handle_data and the raw log

  /** The record handle_data writes: `datasetSecret` removed, `timestamp` set (over
      any value the client sent), every other key and value as received. */
  function Stored(content: Record, timestamp: string): (r: Record)
    ensures "datasetSecret" !in r
    ensures "timestamp" in r && r["timestamp"] == timestamp
    ensures forall k :: k != "datasetSecret" && k != "timestamp" ==>
              (k in r <==> k in content) && (k in content ==> r[k] == content[k])
  {
    (content - {"datasetSecret"})["timestamp" := timestamp]
  }

  /** What json.dumps and json.loads promise each other for the log: a dumped record
      is one line without surrounding white space and loads back as itself, and an
      empty line does not load. */
  ghost predicate JsonLines(dumps: Record -> string, parse: string -> Option<Record>) {
    && parse("") == None
    && forall r: Record :: && dumps(r) != []
                           && !IsSpace(dumps(r)[0]) && !IsSpace(dumps(r)[|dumps(r)| - 1])
                           && '\n' !in dumps(r)
                           && parse(dumps(r)) == Some(r)
  }

  function Dumped(dumps: Record -> string, stored: seq<Record>): (log: seq<string>)
    ensures |log| == |stored|
  {
    seq(|stored|, i requires 0 <= i < |stored| => dumps(stored[i]))
  }

  lemma DumpedSnoc(dumps: Record -> string, stored: seq<Record>, rec: Record)
    ensures Dumped(dumps, stored + [rec]) == Dumped(dumps, stored) + [dumps(rec)]
  {
  }

  /** A line as handle_data writes it: `json.dumps` output, non-empty, one line,
      with no white space at either end. */
  predicate WrittenLine(l: string) {
    l != [] && '\n' !in l && !IsSpace(l[0]) && !IsSpace(l[|l| - 1])
  }

  /** Reading the raw log back gives its lines. */
  lemma LogLinesOfLog(log: seq<string>)
    requires log != []
    requires forall i :: 0 <= i < |log| ==>
               (log[i] != [] && '\n' !in log[i] && !IsSpace(log[i][0]) && !IsSpace(log[i][|log[i]| - 1]))
    ensures LogLines(Lines(log)) == log
  {
    LinesAsJoin(log);
    var j := Join(log, "\n");
    assert Join(log + [""], "\n") == j + "\n" by {
      JoinSnoc(log, "", "\n");
    }
    JoinEnds(log, "\n");
    assert j[0] == log[0][0];
    assert j[|j| - 1] == log[|log| - 1][|log[|log| - 1]| - 1];
    StripTrailing(j, "\n");
    SplitJoin(log, '\n');
  }

  lemma {:induction false} JoinSnoc(parts: seq<string>, x: string, sep: string)
    requires parts != []
    ensures Join(parts + [x], sep) == Join(parts, sep) + sep + x
  {
    if |parts| > 1 {
      assert (parts + [x])[1..] == parts[1..] + [x];
      JoinSnoc(parts[1..], x, sep);
    } else {
      assert (parts + [x])[1..] == [x];
    }
  }

  lemma {:induction false} ParsedDumped(dumps: Record -> string, parse: string -> Option<Record>, stored: seq<Record>)
    requires JsonLines(dumps, parse)
    ensures ParsedRecords(Dumped(dumps, stored), parse) == stored
  {
    if stored != [] {
      var log := Dumped(dumps, stored);
      assert log[0] == dumps(stored[0]);
      assert log[1..] == Dumped(dumps, stored[1..]);
      ParsedDumped(dumps, parse, stored[1..]);
      StripTrimmed(log[0]);
      assert ParsedLine(log[0], parse) == [stored[0]];
      assert ParsedRecords(log, parse) == [stored[0]] + ParsedRecords(log[1..], parse);
      assert stored == [stored[0]] + stored[1..];
    }
  }

  /** The CSV file written after any sequence of requests is the table of the
      records of the raw log the server started with, followed by every record
      stored since, one row per request, in request order. */
  lemma CsvOfLog(dumps: Record -> string, parse: string -> Option<Record>, initial: seq<string>,
                 stored: seq<Record>)
    requires JsonLines(dumps, parse)
    requires forall i :: 0 <= i < |initial| ==> WrittenLine(initial[i])
    ensures CsvOf(Lines(initial + Dumped(dumps, stored)), parse)
            == CsvText(Table(ParsedRecords(initial, parse) + stored))
  {
    var log := initial + Dumped(dumps, stored);
    if log == [] {
      assert LogLines(Lines(log)) == [""];
      assert initial == [] && stored == [];
    } else {
      forall i | 0 <= i < |log|
        ensures WrittenLine(log[i])
      {
        if i >= |initial| {
          assert log[i] == dumps(stored[i - |initial|]);
        }
      }
      LogLinesOfLog(log);
      ParsedRecordsAppend(initial, Dumped(dumps, stored), parse);
      ParsedDumped(dumps, parse, stored);
    }
  }

  // Requests

  /** parse_qs followed by taking values[0]: blank values are dropped, and a key that
      repeats keeps its first non-blank value. */
  function FirstValues(query: seq<(string, string)>): (r: Record)
    ensures forall k :: k in r <==> exists i :: 0 <= i < |query| && query[i].0 == k && query[i].1 != ""
    ensures forall i :: 0 <= i < |query| && query[i].1 != "" && query[i].0 in r
                        && (forall j :: 0 <= j < i ==> query[j].0 != query[i].0 || query[j].1 == "")
                        ==> r[query[i].0] == query[i].1
  {
    if query == [] then map[]
    else
      var rest := FirstValues(query[1..]);
      assert forall i :: 1 <= i < |query| ==> query[i] == query[1..][i - 1];
      if query[0].1 == "" then rest else rest[query[0].0 := query[0].1]
  }

  datatype Body = Message(text: string) | Bytes(data: seq<byte>)

  datatype Reply = Reply(status: int, contentType: Option<string>, body: Body)

  const Script: string := "00_hello_world.py"

  /** The server's files: the raw log, the CSV table and the image the script draws. */
  class Server {
    const dumps: Record -> string
    const parse: string -> Option<Record>
    /** The lines the raw log already held when the server started: the file is
        kept across runs and only ever appended to. */
    const initial: seq<string>
    /** The lines of the raw log. */
    var log: seq<string>
    /** The records behind the lines appended since the server started. */
    ghost var stored: seq<Record>
    /** The CSV file; None while it does not exist. Until the first record of this
        run it is whatever an earlier run left. */
    var csv: Option<string>
    /** The image file served at /img; None while it does not exist. */
    var image: Option<seq<byte>>
    /** How many times the plotting script has been started. */
    var renders: nat

    ghost predicate Valid()
      reads this
    {
      && log == initial + Dumped(dumps, stored)
      && (stored != [] ==> csv == Some(CsvOf(Lines(log), parse)))
    }

    /** A server started on the files an earlier run left: the raw log's lines
        `initial`, the CSV file `csv` and the image `image` (each may be absent). */
    constructor (dumps: Record -> string, parse: string -> Option<Record>, initial: seq<string>,
                 csv: Option<string>, image: Option<seq<byte>>)
      ensures Valid()
      ensures this.dumps == dumps && this.parse == parse && this.initial == initial
      ensures log == initial && stored == [] && this.csv == csv && this.image == image && renders == 0
    {
      this.dumps := dumps;
      this.parse := parse;
      this.initial := initial;
      this.image := image;
      log := initial;
      stored := [];
      this.csv := csv;
      renders := 0;
    }

    /** handle_data: one line appended to the log, the CSV rewritten from the whole log. */
    method HandleData(content: Record, timestamp: string)
      requires Valid()
      modifies this
      ensures Valid()
      ensures stored == old(stored) + [Stored(content, timestamp)]
      ensures log == old(log) + [dumps(Stored(content, timestamp))]
      ensures csv == Some(CsvOf(Lines(log), parse))
      ensures image == old(image) && renders == old(renders)
    {
      var rec := Stored(content, timestamp);
      DumpedSnoc(dumps, stored, rec);
      assert initial + Dumped(dumps, stored + [rec]) == log + [dumps(rec)];
      var appended := log + [dumps(rec)];
      var text := ToCsv(Lines(appended), parse);
      log, stored, csv := appended, stored + [rec], Some(text);
    }

    /** generate_image: runs the plotting script; `rendered` is the image it writes,
        None when it fails and leaves the file as it was. */
    method GenerateImage(rendered: Option<seq<byte>>)
      modifies this
      ensures log == old(log) && stored == old(stored) && csv == old(csv)
      ensures renders == old(renders) + 1
      ensures image == if rendered.Some? then rendered else old(image)
    {
      if Script == "" {
        return;
      }
      renders := renders + 1;
      if rendered.Some? {
        image := rendered;
      }
    }

    /** do_GET on a path and its query pairs (already URL-decoded). */
    method DoGet(path: string, query: seq<(string, string)>, timestamp: string,
                 rendered: Option<seq<byte>>) returns (reply: Reply)
      requires Valid()
      modifies this
      ensures Valid()
      ensures path == "/log" ==>
                && reply == Reply(200, None, Message("OK"))
                && stored == old(stored) + [Stored(FirstValues(query), timestamp)]
                && log == old(log) + [dumps(Stored(FirstValues(query), timestamp))]
                && csv == Some(CsvOf(Lines(log), parse))
                && renders == old(renders) + 1
                && image == if rendered.Some? then rendered else old(image)
      ensures path == "/img" ==>
                && unchanged(this)
                && reply == if image.Some? then Reply(200, Some("image/jpeg"), Bytes(image.value))
                            else Reply(404, None, Message("Image not found"))
      ensures path != "/log" && path != "/img" ==>
                unchanged(this) && reply == Reply(404, None, Message("Path not found"))
    {
      var par := FirstValues(query);
      if path == "/log" {
        HandleData(par, timestamp);
        GenerateImage(rendered);
        reply := Reply(200, None, Message("OK"));
      } else if path == "/img" {
        match image {
          case Some(data) => reply := Reply(200, Some("image/jpeg"), Bytes(data));
          case None => reply := Reply(404, None, Message("Image not found"));
        }
      } else {
        reply := Reply(404, None, Message("Path not found"));
      }
    }

    /** do_POST on a path and its body, `body` being None when the body is not valid
        JSON: such a request is logged as an empty record. There is no /img route
        and no image generation here. */
    method DoPost(path: string, body: Option<Record>, timestamp: string) returns (reply: Reply)
      requires Valid()
      modifies this
      ensures Valid()
      ensures path == "/log" ==>
                && reply == Reply(200, None, Message("OK"))
                && stored == old(stored) + [Stored(if body.Some? then body.value else map[], timestamp)]
                && log == old(log) + [dumps(Stored(if body.Some? then body.value else map[], timestamp))]
                && csv == Some(CsvOf(Lines(log), parse))
                && image == old(image) && renders == old(renders)
      ensures path != "/log" ==> unchanged(this) && reply == Reply(404, None, Message("Path not found"))
    {
      var postData: Record := if body.Some? then body.value else map[];
      if path == "/log" {
        HandleData(postData, timestamp);
        reply := Reply(200, None, Message("OK"));
      } else {
        reply := Reply(404, None, Message("Path not found"));
      }
    }
  }

  /** A POST whose body is not JSON stores only its timestamp. */
  lemma InvalidPostStoresOnlyTimestamp(timestamp: string)
    ensures Stored(map[], timestamp) == map["timestamp" := timestamp]
  {
  }
}
