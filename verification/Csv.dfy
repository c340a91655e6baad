// The CSV of confidentialActivityToCsv in src/auditorReport.ts, and a reader for section 2 of RFC 4180.
module Csv {
  import opened Wrappers

  type Record = seq<string>

  // ---- printing ----

  predicate Special(c: char) {
    c == '"' || c == ',' || c == '\r' || c == '\n'
  }

  predicate NeedsQuotes(value: string) {
    exists k :: 0 <= k < |value| && Special(value[k])
  }

  function DoubleQuotes(value: string): string {
    if value == [] then []
    else (if value[0] == '"' then "\"\"" else [value[0]]) + DoubleQuotes(value[1..])
  }

  function Field(value: string): string {
    if NeedsQuotes(value) then "\"" + DoubleQuotes(value) + "\"" else value
  }

  function Join(parts: seq<string>, separator: string): string {
    if parts == [] then [] else if |parts| == 1 then parts[0] else parts[0] + separator + Join(parts[1..], separator)
  }

  function Fields(record: Record): (r: seq<string>)
    ensures |r| == |record| && forall k :: 0 <= k < |record| ==> r[k] == Field(record[k])
  {
    seq(|record|, k requires 0 <= k < |record| => Field(record[k]))
  }

  function Line(record: Record): string {
    Join(Fields(record), ",")
  }

  function Lines(records: seq<Record>): (r: seq<string>)
    ensures |r| == |records| && forall k :: 0 <= k < |records| ==> r[k] == Line(records[k])
  {
    seq(|records|, k requires 0 <= k < |records| => Line(records[k]))
  }

  // The header is printed as it is, the records field by field.
  function Print(header: Record, records: seq<Record>): string {
    Join([Join(header, ",")] + Lines(records), "\r\n") + "\r\n"
  }

  // ---- reading ----

  // After an opening quote: up to the closing one, a doubled quote being one quote.
  function ReadQuoted(s: string): (r: Option<(string, string)>)
    ensures r.Some? ==> |r.value.1| < |s|
    decreases |s|
  {
    if s == [] then None
    else if s[0] != '"' then
      var rest := ReadQuoted(s[1..]);
      if rest.None? then None else Some(([s[0]] + rest.value.0, rest.value.1))
    else if |s| > 1 && s[1] == '"' then
      var rest := ReadQuoted(s[2..]);
      if rest.None? then None else Some((['"'] + rest.value.0, rest.value.1))
    else Some(([], s[1..]))
  }

  function ReadPlain(s: string): (r: (string, string))
    ensures |r.1| <= |s|
    decreases |s|
  {
    if s == [] || Special(s[0]) then ([], s)
    else
      var (value, rest) := ReadPlain(s[1..]);
      ([s[0]] + value, rest)
  }

  function ReadField(s: string): (r: Option<(string, string)>)
    ensures r.Some? ==> |r.value.1| <= |s|
  {
    if s != [] && s[0] == '"' then ReadQuoted(s[1..]) else Some(ReadPlain(s))
  }

  // Fields separated by commas, up to a line break or the end of the file.
  function ReadRecord(s: string): (r: Option<(Record, string)>)
    ensures r.Some? && s != [] ==> |r.value.1| < |s|
    decreases |s|
  {
    var field := ReadField(s);
    if field.None? then None
    else
      var (value, rest) := field.value;
      if rest == [] then Some(([value], []))
      else if rest[0] == ',' then
        var more := ReadRecord(rest[1..]);
        if more.None? then None else Some(([value] + more.value.0, more.value.1))
      else if |rest| > 1 && rest[0] == '\r' && rest[1] == '\n' then Some(([value], rest[2..]))
      else None
  }

  function ReadFile(s: string): Option<seq<Record>>
    decreases |s|
  {
    if s == [] then Some([])
    else
      var record := ReadRecord(s);
      if record.None? then None
      else
        var more := ReadFile(record.value.1);
        if more.None? then None else Some([record.value.0] + more.value)
  }

  // ---- reading what was printed ----

  lemma {:induction false} ReadDoubled(value: string, rest: string)
    requires rest == [] || rest[0] != '"'
    ensures ReadQuoted(DoubleQuotes(value) + "\"" + rest) == Some((value, rest))
    decreases |value|
  {
    var s := DoubleQuotes(value) + "\"" + rest;
    if value == [] {
      assert s[1..] == rest;
    } else {
      var tail := DoubleQuotes(value[1..]) + "\"" + rest;
      ReadDoubled(value[1..], rest);
      if value[0] == '"' {
        assert s[2..] == tail;
        assert s[0] == '"' && s[1] == '"';
      } else {
        assert s[1..] == tail;
      }
      assert [value[0]] + value[1..] == value;
    }
  }

  lemma {:induction false} ReadUnquoted(value: string, rest: string)
    requires !NeedsQuotes(value) && (rest == [] || Special(rest[0]))
    ensures ReadPlain(value + rest) == (value, rest)
    decreases |value|
  {
    if value == [] {
      assert value + rest == rest;
    } else {
      assert (value + rest)[1..] == value[1..] + rest;
      assert !Special(value[0]);
      ReadUnquoted(value[1..], rest);
      assert [value[0]] + value[1..] == value;
    }
  }

  lemma ReadPrintedField(value: string, rest: string)
    requires rest != [] && (rest[0] == ',' || rest[0] == '\r')
    ensures ReadField(Field(value) + rest) == Some((value, rest))
  {
    hide ReadQuoted, ReadPlain, DoubleQuotes;
    if NeedsQuotes(value) {
      ReadDoubled(value, rest);
      var s := "\"" + (DoubleQuotes(value) + "\"" + rest);
      assert Field(value) + rest == s;
      assert s[0] == '"' && s[1..] == DoubleQuotes(value) + "\"" + rest;
    } else {
      ReadUnquoted(value, rest);
      var s := value + rest;
      assert s[0] != '"' by {
        assert s[0] == if value == [] then rest[0] else value[0];
        assert value != [] ==> !Special(value[0]);
      }
    }
  }

  lemma {:induction false} ReadPrintedRecord(record: Record, rest: string)
    requires record != []
    ensures ReadRecord(Line(record) + "\r\n" + rest) == Some((record, rest))
    decreases |record|
  {
    hide ReadField, Field;
    var s := Line(record) + "\r\n" + rest;
    if |record| == 1 {
      assert Line(record) == Field(record[0]);
      ReadPrintedField(record[0], "\r\n" + rest);
      var tail := "\r\n" + rest;
      assert s == Field(record[0]) + tail;
      assert tail[0] == '\r' && tail[1] == '\n' && tail[2..] == rest;
      assert [record[0]] == record;
    } else {
      assert Fields(record)[1..] == Fields(record[1..]);
      var tail := Line(record[1..]) + "\r\n" + rest;
      ReadPrintedField(record[0], "," + tail);
      assert s == Field(record[0]) + ("," + tail);
      assert ("," + tail)[1..] == tail;
      ReadPrintedRecord(record[1..], rest);
      assert [record[0]] + record[1..] == record;
    }
  }

  lemma {:induction false} ReadPrintedLines(records: seq<Record>)
    requires forall k :: 0 <= k < |records| ==> records[k] != []
    ensures ReadFile(if records == [] then [] else Join(Lines(records), "\r\n") + "\r\n") == Some(records)
    decreases |records|
  {
    hide ReadRecord, Line;
    if records != [] {
      var s := Join(Lines(records), "\r\n") + "\r\n";
      assert Lines(records)[1..] == Lines(records[1..]);
      var rest := if |records| == 1 then [] else Join(Lines(records[1..]), "\r\n") + "\r\n";
      assert s == Line(records[0]) + "\r\n" + rest;
      ReadPrintedRecord(records[0], rest);
      ReadPrintedLines(records[1..]);
      assert [records[0]] + records[1..] == records;
    }
  }

  // Reading the file gives the header and exactly the records, whatever their fields contain.
  lemma FileRoundTrip(header: Record, records: seq<Record>)
    requires header != [] && forall k :: 0 <= k < |header| ==> !NeedsQuotes(header[k])
    requires forall k :: 0 <= k < |records| ==> records[k] != []
    ensures ReadFile(Print(header, records)) == Some([header] + records)
  {
    assert Fields(header) == header;
    var all := [header] + records;
    assert Lines(all) == [Join(header, ",")] + Lines(records);
    ReadPrintedLines(all);
  }
}
