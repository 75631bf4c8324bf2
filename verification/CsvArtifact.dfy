/**
 CSV report artifacts: the printer, and a reader for the grammar of section 2 of
 RFC 4180 with TEXTDATA widened to every character that needs no quoting.
 */
module CsvArtifact {
  import opened Common

  /** A cell; a number or date stands as the text a template literal or toISOString gives it. */
  datatype CsvValue =
    | Text(text: string)
    | Number(text: string)
    | Boolean(b: bool)
    | Date(iso: string)
    | Null
    | Undefined

  // ----- The printer -----

  function Normalize(v: CsvValue): string {
    match v
    case Text(t) => t
    case Number(t) => t
    case Boolean(b) => if b then "true" else "false"
    case Date(iso) => iso
    case Null => ""
    case Undefined => ""
  }

  predicate IsSpecial(c: char) {
    c == '"' || c == ',' || c == '\r' || c == '\n'
  }

  predicate NeedsQuotes(s: string) {
    exists i :: 0 <= i < |s| && IsSpecial(s[i])
  }

  function DoubleQuotes(s: string): string {
    if s == "" then "" else (if s[0] == '"' then "\"\"" else [s[0]]) + DoubleQuotes(s[1..])
  }

  function EscapeField(s: string): string {
    if NeedsQuotes(s) then "\"" + DoubleQuotes(s) + "\"" else s
  }

  function EscapeCsvValue(v: CsvValue): string {
    EscapeField(Normalize(v))
  }

  function Join(parts: seq<string>, sep: string): string {
    if parts == [] then "" else if |parts| == 1 then parts[0] else parts[0] + sep + Join(parts[1..], sep)
  }

  function RenderRow(row: seq<CsvValue>): string {
    Join(seq(|row|, i requires 0 <= i < |row| => EscapeCsvValue(row[i])), ",")
  }

  function RenderCsv(rows: seq<seq<CsvValue>>): string {
    Join(seq(|rows|, i requires 0 <= i < |rows| => RenderRow(rows[i])), "\r\n") + "\r\n"
  }

  // ----- The reader -----

  datatype Read<+T> = Fail | Got(value: T, rest: string)

  function ReadQuoted(s: string): (r: Read<string>)
    ensures r.Got? ==> |r.rest| < |s|
    decreases |s|
  {
    if s == "" then Fail
    else if s[0] == '"' && (|s| < 2 || s[1] != '"') then Got("", s[1..])
    else
      var tail := ReadQuoted(if s[0] == '"' then s[2..] else s[1..]);
      if tail.Fail? then Fail else Got([s[0]] + tail.value, tail.rest)
  }

  function ReadPlain(s: string): (r: Read<string>)
    ensures r.Got? && |r.rest| <= |s|
  {
    if s == "" || IsSpecial(s[0]) then Got("", s)
    else var tail := ReadPlain(s[1..]); Got([s[0]] + tail.value, tail.rest)
  }

  function ReadField(s: string): (r: Read<string>)
    ensures r.Got? ==> |r.rest| <= |s|
  {
    if s != "" && s[0] == '"' then ReadQuoted(s[1..]) else ReadPlain(s)
  }

  function ReadRecord(s: string): (r: Read<seq<string>>)
    ensures r.Got? ==> |r.rest| <= |s| && r.value != []
    decreases |s|
  {
    var head := ReadField(s);
    if head.Fail? then Fail
    else if head.rest != "" && head.rest[0] == ',' then
      var tail := ReadRecord(head.rest[1..]);
      if tail.Fail? then Fail else Got([head.value] + tail.value, tail.rest)
    else Got([head.value], head.rest)
  }

  /** file = record *(CRLF record) [CRLF] */
  function ReadCsv(s: string): (r: Option<seq<seq<string>>>)
    ensures r.Some? ==> r.value != [] && forall i :: 0 <= i < |r.value| ==> r.value[i] != []
    decreases |s|
  {
    var head := ReadRecord(s);
    if head.Fail? then None
    else if head.rest == "" || head.rest == "\r\n" then Some([head.value])
    else if "\r\n" <= head.rest then
      var tail := ReadCsv(head.rest[2..]);
      if tail.None? then None else Some([head.value] + tail.value)
    else None
  }

  // ----- The reader undoes the printer -----

  predicate FieldEnds(rest: string) {
    rest != "" && (rest[0] == ',' || rest[0] == '\r')
  }

  /** Reading one character of a quoted field, doubled if it is a quotation mark. */
  lemma ReadQuotedStep(c: char, tail: string)
    requires ReadQuoted(tail).Got?
    ensures ReadQuoted((if c == '"' then "\"\"" else [c]) + tail)
            == Got([c] + ReadQuoted(tail).value, ReadQuoted(tail).rest)
  {
    assert ("\"\"" + tail)[2..] == tail && ([c] + tail)[1..] == tail;
  }

  lemma ReadQuotedEnd(rest: string)
    requires FieldEnds(rest)
    ensures ReadQuoted("\"" + rest) == Got("", rest)
  {
    assert ("\"" + rest)[1..] == rest;
  }

  function QuotedTail(s: string, rest: string): string {
    DoubleQuotes(s) + ("\"" + rest)
  }

  lemma QuotedTailSplits(s: string, rest: string)
    ensures s == "" ==> QuotedTail(s, rest) == "\"" + rest
    ensures s != "" ==> QuotedTail(s, rest) == (if s[0] == '"' then "\"\"" else [s[0]]) + QuotedTail(s[1..], rest)
  {
  }

  lemma {:induction false} ReadQuotedUndoes(s: string, rest: string)
    requires FieldEnds(rest)
    ensures ReadQuoted(QuotedTail(s, rest)) == Got(s, rest)
  {
    QuotedTailSplits(s, rest);
    if s == "" {
      ReadQuotedEnd(rest);
    } else {
      ReadQuotedUndoes(s[1..], rest);
      ReadQuotedStep(s[0], QuotedTail(s[1..], rest));
      assert s == [s[0]] + s[1..];
    }
  }

  lemma {:induction false} ReadPlainUndoes(s: string, rest: string)
    requires !NeedsQuotes(s) && FieldEnds(rest)
    ensures ReadPlain(s + rest) == Got(s, rest)
  {
    if s == "" {
      assert s + rest == rest;
    } else {
      assert forall i :: 0 <= i < |s[1..]| ==> s[1..][i] == s[i + 1];
      ReadPlainUndoes(s[1..], rest);
      assert (s + rest)[1..] == s[1..] + rest && s == [s[0]] + s[1..];
      assert !IsSpecial(s[0]);
    }
  }

  lemma PlainStarts(s: string, rest: string)
    requires !NeedsQuotes(s) && FieldEnds(rest)
    ensures s + rest != "" && (s + rest)[0] != '"'
  {
    assert s != "" ==> !IsSpecial(s[0]);
  }

  lemma ReadFieldUndoes(s: string, rest: string)
    requires FieldEnds(rest)
    ensures ReadField(EscapeField(s) + rest) == Got(s, rest)
  {
    if NeedsQuotes(s) {
      ReadQuotedUndoes(s, rest);
      QuotedStarts(s, rest);
    } else {
      ReadPlainUndoes(s, rest);
      PlainStarts(s, rest);
    }
  }

  lemma QuotedStarts(s: string, rest: string)
    requires NeedsQuotes(s)
    ensures var t := EscapeField(s) + rest;
      t != "" && t[0] == '"' && t[1..] == QuotedTail(s, rest)
  {
    Regroup("\"", DoubleQuotes(s), "\"", rest);
  }

  lemma Regroup(a: string, b: string, c: string, d: string)
    ensures a + b + c + d == a + (b + (c + d))
  {
    assert a + b + c == a + (b + c);
  }

  /** A field is quoted exactly when it holds a quotation mark, a comma or a line end. */
  lemma QuotedIff(s: string)
    ensures EscapeField(s) == s <==> '"' !in s && ',' !in s && '\r' !in s && '\n' !in s
    ensures EscapeField(s) != s ==> |EscapeField(s)| >= |s| + 2 && EscapeField(s)[0] == '"'
  {
    DoublingGrows(s);
    if i :| 0 <= i < |s| && IsSpecial(s[i]) {
      assert s[i] in s;
    }
  }

  lemma {:induction false} DoublingGrows(s: string)
    ensures |DoubleQuotes(s)| >= |s|
  {
    if s != "" {
      DoublingGrows(s[1..]);
    }
  }

  /** What each kind of cell reads back as. */
  lemma CellReadsBack(v: CsvValue, rest: string)
    requires FieldEnds(rest)
    ensures var r := ReadField(EscapeCsvValue(v) + rest);
      && r.Got? && r.rest == rest
      && match v
         case Text(t) => r.value == t
         case Number(t) => r.value == t
         case Boolean(b) => r.value == if b then "true" else "false"
         case Date(iso) => r.value == iso
         case _ => r.value == ""
  {
    ReadFieldUndoes(Normalize(v), rest);
  }

  function NormalizeRow(row: seq<CsvValue>): seq<string> {
    seq(|row|, i requires 0 <= i < |row| => Normalize(row[i]))
  }

  function NormalizeRows(rows: seq<seq<CsvValue>>): seq<seq<string>> {
    seq(|rows|, i requires 0 <= i < |rows| => NormalizeRow(rows[i]))
  }

  lemma JoinSplits(parts: seq<string>, sep: string, tail: string)
    requires |parts| > 1
    ensures Join(parts, sep) + tail == parts[0] + (sep + (Join(parts[1..], sep) + tail))
  {
  }

  lemma RenderRowSplits(row: seq<CsvValue>, rest: string)
    requires |row| > 1
    ensures RenderRow(row) + rest == EscapeField(Normalize(row[0])) + ("," + (RenderRow(row[1..]) + rest))
  {
    var parts := seq(|row|, i requires 0 <= i < |row| => EscapeCsvValue(row[i]));
    assert parts[1..] == seq(|row[1..]|, i requires 0 <= i < |row[1..]| => EscapeCsvValue(row[1..][i]));
    JoinSplits(parts, ",", rest);
  }

  lemma NormalizeRowSplits(row: seq<CsvValue>)
    requires row != []
    ensures NormalizeRow(row) == [Normalize(row[0])] + NormalizeRow(row[1..])
  {
  }

  /** One more field in front of a record that reads back. */
  lemma ReadRecordStep(s: string, tail: string, fields: seq<string>, rest: string)
    requires ReadRecord(tail) == Got(fields, rest)
    ensures ReadRecord(EscapeField(s) + ("," + tail)) == Got([s] + fields, rest)
  {
    ReadFieldUndoes(s, "," + tail);
    assert ("," + tail)[1..] == tail;
  }

  lemma {:induction false} ReadRecordUndoes(row: seq<CsvValue>, rest: string)
    requires row != [] && FieldEnds(rest) && rest[0] == '\r'
    ensures ReadRecord(RenderRow(row) + rest) == Got(NormalizeRow(row), rest)
  {
    NormalizeRowSplits(row);
    if |row| == 1 {
      ReadFieldUndoes(Normalize(row[0]), rest);
      assert NormalizeRow(row) == [Normalize(row[0])];
    } else {
      RenderRowSplits(row, rest);
      ReadRecordUndoes(row[1..], rest);
      ReadRecordStep(Normalize(row[0]), RenderRow(row[1..]) + rest, NormalizeRow(row[1..]), rest);
    }
  }

  lemma RenderCsvSplits(rows: seq<seq<CsvValue>>)
    requires |rows| > 1
    ensures RenderCsv(rows) == RenderRow(rows[0]) + ("\r\n" + RenderCsv(rows[1..]))
  {
    var parts := seq(|rows|, i requires 0 <= i < |rows| => RenderRow(rows[i]));
    assert parts[1..] == seq(|rows[1..]|, i requires 0 <= i < |rows[1..]| => RenderRow(rows[1..][i]));
    JoinSplits(parts, "\r\n", "\r\n");
  }

  lemma RenderCsvNotEmpty(rows: seq<seq<CsvValue>>)
    ensures RenderCsv(rows) != ""
  {
  }

  lemma NormalizeRowsSplits(rows: seq<seq<CsvValue>>)
    requires rows != []
    ensures NormalizeRows(rows) == [NormalizeRow(rows[0])] + NormalizeRows(rows[1..])
  {
  }

  /** One more record in front of a file that reads back. */
  lemma ReadCsvStep(row: seq<CsvValue>, tail: string, rows: seq<seq<string>>)
    requires row != [] && tail != "" && ReadCsv(tail) == Some(rows)
    ensures ReadCsv(RenderRow(row) + ("\r\n" + tail)) == Some([NormalizeRow(row)] + rows)
  {
    ReadRecordUndoes(row, "\r\n" + tail);
    assert ("\r\n" + tail)[2..] == tail;
  }

  /** Every table with at least one row and no empty row comes back. */
  lemma {:induction false} ReadCsvUndoes(rows: seq<seq<CsvValue>>)
    requires rows != [] && forall i :: 0 <= i < |rows| ==> rows[i] != []
    ensures ReadCsv(RenderCsv(rows)) == Some(NormalizeRows(rows))
  {
    NormalizeRowsSplits(rows);
    if |rows| == 1 {
      ReadRecordUndoes(rows[0], "\r\n");
      assert NormalizeRows(rows) == [NormalizeRow(rows[0])];
    } else {
      RenderCsvSplits(rows);
      ReadCsvUndoes(rows[1..]);
      RenderCsvNotEmpty(rows[1..]);
      ReadCsvStep(rows[0], RenderCsv(rows[1..]), NormalizeRows(rows[1..]));
    }
  }

  /** The rows come back exactly when there is a row and no row is empty: an empty table
      and an empty row print like a row of one empty cell. */
  lemma ReadCsvUndoesIff(rows: seq<seq<CsvValue>>)
    ensures ReadCsv(RenderCsv(rows)) == Some(NormalizeRows(rows))
            <==> rows != [] && forall i :: 0 <= i < |rows| ==> rows[i] != []
  {
    if rows != [] && forall i :: 0 <= i < |rows| ==> rows[i] != [] {
      ReadCsvUndoes(rows);
    } else if rows != [] {
      var i :| 0 <= i < |rows| && rows[i] == [];
      assert NormalizeRows(rows)[i] == [];
    }
  }

  /** `createCsvReportArtifact` prints the headers before the rows and reports the row count. */
  datatype Artifact = Artifact(rowCount: nat, csv: string)

  function CreateArtifact(headers: seq<CsvValue>, rows: seq<seq<CsvValue>>): Artifact {
    Artifact(|rows|, RenderCsv([headers] + rows))
  }

  /** Reading an artifact back gives the headers, the rows: `rowCount` rows
      below the headers. */
  lemma ArtifactReadsBack(headers: seq<CsvValue>, rows: seq<seq<CsvValue>>)
    requires headers != [] && forall i :: 0 <= i < |rows| ==> rows[i] != []
    ensures var a := CreateArtifact(headers, rows);
            var r := ReadCsv(a.csv);
            r.Some? && |r.value| == a.rowCount + 1
            && r.value[0] == NormalizeRow(headers) && r.value[1..] == NormalizeRows(rows)
  {
    ReadCsvUndoes([headers] + rows);
    assert forall i :: 0 <= i < |rows| ==> ([headers] + rows)[i + 1] == rows[i];
    assert NormalizeRows([headers] + rows)[1..] == NormalizeRows(rows);
  }
}
