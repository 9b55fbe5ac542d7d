/** CSV export (frontend/src/csv.ts), and the quote-aware reader it is meant for:
    section 2 of RFC 4180, with a bare line feed between records. */
module Csv {
  import opened Wrappers

  /** A row object's property; `Text` is what `String(value)` gives. */
  datatype Value = Null | Undefined | Text(text: string)

  type RowObject = map<string, Value>

  function Property(row: RowObject, column: string): Value {
    if column in row then row[column] else Undefined
  }

  function CellText(value: Value): string {
    if value.Text? then value.text else ""
  }

  predicate NeedsQuotes(s: string) { '"' in s || ',' in s || '\n' in s }

  function Doubled(s: string): string {
    if s == [] then [] else (if s[0] == '"' then ['"', '"'] else [s[0]]) + Doubled(s[1..])
  }

  function CsvCell(value: Value): string {
    var s := CellText(value);
    if NeedsQuotes(s) then ['"'] + Doubled(s) + ['"'] else s
  }

  function Join(parts: seq<string>, separator: char): string {
    if parts == [] then []
    else if |parts| == 1 then parts[0]
    else parts[0] + [separator] + Join(parts[1..], separator)
  }

  function CsvCells(values: seq<Value>): seq<string> {
    seq(|values|, i requires 0 <= i < |values| => CsvCell(values[i]))
  }

  function Line(values: seq<Value>): string { Join(CsvCells(values), ',') }

  function HeaderValues(columns: seq<string>): seq<Value> {
    seq(|columns|, i requires 0 <= i < |columns| => Text(columns[i]))
  }

  function RowValues(row: RowObject, columns: seq<string>): seq<Value> {
    seq(|columns|, i requires 0 <= i < |columns| => Property(row, columns[i]))
  }

  function Body(rows: seq<RowObject>, columns: seq<string>): seq<seq<Value>> {
    seq(|rows|, i requires 0 <= i < |rows| => RowValues(rows[i], columns))
  }

  function Lines(table: seq<seq<Value>>): seq<string> {
    seq(|table|, i requires 0 <= i < |table| => Line(table[i]))
  }

  function ToCsv(rows: seq<RowObject>, columns: seq<string>): string {
    Join(Lines([HeaderValues(columns)] + Body(rows, columns)), '\n')
  }

  /** What a row prints in a column: nothing for null, undefined or no such property,
      and otherwise the property's text. */
  lemma PropertyText(row: RowObject, column: string)
    ensures column !in row || row[column].Null? || row[column].Undefined? ==> CellText(Property(row, column)) == ""
    ensures forall text :: column in row && row[column] == Text(text) ==> CellText(Property(row, column)) == text
  {
  }

  /** A cell is quoted only where it has to be. */
  lemma QuotedOnlyIfNeeded(value: Value)
    ensures CsvCell(value) == CellText(value)
            <==> forall c :: c in CellText(value) ==> c != '"' && c != ',' && c != '\n'
    ensures CsvCell(value) != CellText(value) ==>
              |CsvCell(value)| >= 2 && CsvCell(value)[0] == '"' && CsvCell(value)[|CsvCell(value)| - 1] == '"'
  {
    var s := CellText(value);
    if NeedsQuotes(s) {
      DoubledLonger(s);
    }
  }

  lemma {:induction false} DoubledLonger(s: string)
    ensures |Doubled(s)| >= |s|
  {
    if s != [] {
      DoubledLonger(s[1..]);
    }
  }

  // ---- the reader ----

  /** Where the reader stands: at a field's start, inside a bare field, inside
      quotes, or just past what may be a closing quote. */
  datatype Mode = Start | Bare | Quoted | Closed

  type Records = seq<seq<string>>

  function Read(text: string, mode: Mode, field: string, record: seq<string>, records: Records): Result<Records, string>
    decreases |text|
  {
    if text == [] then
      if mode == Quoted then Failure("unterminated quote") else Success(records + [record + [field]])
    else
      var (c, rest) := (text[0], text[1..]);
      if mode == Quoted then
        if c == '"' then Read(rest, Closed, field, record, records)
        else Read(rest, Quoted, field + [c], record, records)
      else if c == ',' then Read(rest, Start, "", record + [field], records)
      else if c == '\n' then Read(rest, Start, "", [], records + [record + [field]])
      else if mode == Closed then
        if c == '"' then Read(rest, Quoted, field + ['"'], record, records) else Failure("text after a closing quote")
      else if c == '"' then
        if mode == Start then Read(rest, Quoted, "", record, records) else Failure("quote inside a bare field")
      else Read(rest, Bare, field + [c], record, records)
  }

  function Parse(text: string): Result<Records, string> { Read(text, Start, "", [], []) }

  // ---- the reader undoes the printer ----

  lemma {:induction false} ReadDoubled(s: string, tail: string, field: string, record: seq<string>, records: Records)
    ensures Read(Doubled(s) + ['"'] + tail, Quoted, field, record, records)
            == Read(tail, Closed, field + s, record, records)
  {
    var text := Doubled(s) + ['"'] + tail;
    if s == [] {
      assert text[1..] == tail && field + s == field;
    } else {
      var rest := Doubled(s[1..]) + ['"'] + tail;
      ReadDoubled(s[1..], tail, field + [s[0]], record, records);
      assert field + [s[0]] + s[1..] == field + s;
      if s[0] == '"' {
        assert text[1..][1..] == rest && text[1..][0] == '"';
      } else {
        assert text[1..] == rest;
      }
    }
  }

  lemma {:induction false} ReadBare(s: string, tail: string, mode: Mode, field: string, record: seq<string>,
                                    records: Records)
    requires !NeedsQuotes(s) && (mode == Start || mode == Bare)
    ensures Read(s + tail, mode, field, record, records)
            == Read(tail, if s == [] then mode else Bare, field + s, record, records)
  {
    if s == [] {
      assert s + tail == tail && field + s == field;
    } else {
      assert (s + tail)[1..] == s[1..] + tail && s[0] in s;
      assert forall c :: c in s[1..] ==> c in s;
      ReadBare(s[1..], tail, Bare, field + [s[0]], record, records);
      assert field + [s[0]] + s[1..] == field + s;
    }
  }

  /** A field is over: the text ends here, or a separator follows. */
  predicate AtEnd(tail: string) { tail == [] || tail[0] == ',' || tail[0] == '\n' }

  lemma ModeAtEnd(tail: string, mode: Mode, field: string, record: seq<string>, records: Records)
    requires AtEnd(tail) && mode != Quoted
    ensures Read(tail, mode, field, record, records) == Read(tail, Bare, field, record, records)
  {
  }

  /** Reading back one printed cell, whatever it holds. */
  lemma ReadCell(value: Value, tail: string, record: seq<string>, records: Records)
    requires AtEnd(tail)
    ensures Read(CsvCell(value) + tail, Start, "", record, records)
            == Read(tail, Bare, CellText(value), record, records)
  {
    hide Read, Doubled;
    var s := CellText(value);
    assert "" + s == s;
    if NeedsQuotes(s) {
      var text := CsvCell(value) + tail;
      assert text[0] == '"' && text[1..] == Doubled(s) + ['"'] + tail;
      OpenQuote(text, record, records);
      ReadDoubled(s, tail, "", record, records);
      ModeAtEnd(tail, Closed, s, record, records);
    } else {
      ReadBare(s, tail, Start, "", record, records);
      ModeAtEnd(tail, if s == [] then Start else Bare, s, record, records);
    }
  }

  lemma OpenQuote(text: string, record: seq<string>, records: Records)
    requires text != [] && text[0] == '"'
    ensures Read(text, Start, "", record, records) == Read(text[1..], Quoted, "", record, records)
  {
  }

  function Texts(values: seq<Value>): seq<string> {
    seq(|values|, i requires 0 <= i < |values| => CellText(values[i]))
  }

  lemma LineSplits(values: seq<Value>, tail: string)
    requires |values| > 1
    ensures Line(values) + tail == CsvCell(values[0]) + ([','] + (Line(values[1..]) + tail))
    ensures Texts(values) == [CellText(values[0])] + Texts(values[1..])
  {
    hide CsvCell;
    assert CsvCells(values)[1..] == CsvCells(values[1..]);
  }

  /** Reading back one printed line, up to the end of the text or of the line. */
  lemma {:induction false} ReadLine(values: seq<Value>, tail: string, record: seq<string>, records: Records)
    requires values != [] && (tail == [] || tail[0] == '\n')
    ensures Read(Line(values) + tail, Start, "", record, records)
            == if tail == [] then Success(records + [record + Texts(values)])
               else Read(tail[1..], Start, "", [], records + [record + Texts(values)])
  {
    hide CsvCell;
    var first := CellText(values[0]);
    if |values| == 1 {
      assert Line(values) == CsvCell(values[0]) && Texts(values) == [first];
      ReadCell(values[0], tail, record, records);
    } else {
      hide Line, Texts;
      var rest := values[1..];
      var after := [','] + (Line(rest) + tail);
      LineSplits(values, tail);
      ReadCell(values[0], after, record, records);
      assert after[1..] == Line(rest) + tail;
      ReadLine(rest, tail, record + [first], records);
      assert record + [first] + Texts(rest) == record + Texts(values);
    }
  }

  function TextsOf(table: seq<seq<Value>>): Records {
    seq(|table|, i requires 0 <= i < |table| => Texts(table[i]))
  }

  lemma LinesSplit(table: seq<seq<Value>>)
    requires |table| > 1
    ensures Join(Lines(table), '\n') == Line(table[0]) + (['\n'] + Join(Lines(table[1..]), '\n'))
    ensures TextsOf(table) == [Texts(table[0])] + TextsOf(table[1..])
  {
    hide Line, Texts;
    assert Lines(table)[1..] == Lines(table[1..]);
  }

  lemma {:induction false} ReadLines(table: seq<seq<Value>>, records: Records)
    requires table != [] && forall i :: 0 <= i < |table| ==> table[i] != []
    ensures Read(Join(Lines(table), '\n'), Start, "", [], records) == Success(records + TextsOf(table))
  {
    hide Read, Line, Texts;
    var first := table[0];
    assert [] + Texts(first) == Texts(first);
    if |table| == 1 {
      assert Line(first) + [] == Line(first) && TextsOf(table) == [Texts(first)];
      ReadLine(first, [], [], records);
    } else {
      hide Lines, TextsOf;
      var rest := table[1..];
      var after := ['\n'] + Join(Lines(rest), '\n');
      LinesSplit(table);
      assert after[1..] == Join(Lines(rest), '\n');
      ReadLine(first, after, [], records);
      ReadLines(rest, records + [Texts(first)]);
      assert records + [Texts(first)] + TextsOf(rest) == records + TextsOf(table);
    }
  }

  /** What the file should read back as: the column names, then every row's texts,
      with null and undefined as the empty string. */
  function Table(rows: seq<RowObject>, columns: seq<string>): Records {
    [columns] + seq(|rows|, i requires 0 <= i < |rows| => Texts(RowValues(rows[i], columns)))
  }

  lemma TableIsTexts(rows: seq<RowObject>, columns: seq<string>)
    ensures TextsOf([HeaderValues(columns)] + Body(rows, columns)) == Table(rows, columns)
  {
    assert Texts(HeaderValues(columns)) == columns;
  }

  ghost predicate AllHaveFields(records: Records) {
    forall i :: 0 <= i < |records| ==> records[i] != []
  }

  /** The reader never returns a record without fields. */
  lemma {:induction false} RecordsHaveFields(text: string, mode: Mode, field: string, record: seq<string>,
                                             records: Records)
    requires AllHaveFields(records)
    ensures match Read(text, mode, field, record, records)
            case Success(read) => AllHaveFields(read)
            case Failure(_) => true
    decreases |text|
  {
    if text != [] {
      var (c, rest) := (text[0], text[1..]);
      if mode != Quoted && c == ',' {
        RecordsHaveFields(rest, Start, "", record + [field], records);
      } else if mode != Quoted && c == '\n' {
        RecordsHaveFields(rest, Start, "", [], records + [record + [field]]);
      } else if mode == Quoted && c == '"' {
        RecordsHaveFields(rest, Closed, field, record, records);
      } else if mode == Quoted {
        RecordsHaveFields(rest, Quoted, field + [c], record, records);
      } else if mode == Closed && c == '"' {
        RecordsHaveFields(rest, Quoted, field + ['"'], record, records);
      } else if mode == Start && c == '"' {
        RecordsHaveFields(rest, Quoted, "", record, records);
      } else if mode != Closed && c != '"' {
        RecordsHaveFields(rest, Bare, field + [c], record, records);
      }
    }
  }

  /** The export reads back exactly, whatever the cells hold, if and only if there
      is at least one column: with none, every line is read as one empty field. */
  lemma RoundTripExact(rows: seq<RowObject>, columns: seq<string>)
    ensures Parse(ToCsv(rows, columns)) == Success(Table(rows, columns)) <==> columns != []
  {
    hide Read;
    if columns != [] {
      var table := [HeaderValues(columns)] + Body(rows, columns);
      ReadLines(table, []);
      TableIsTexts(rows, columns);
      assert [] + TextsOf(table) == TextsOf(table);
    } else {
      RecordsHaveFields(ToCsv(rows, columns), Start, "", [], []);
      var expected := Table(rows, columns);
      assert expected[0] == columns;
      assert !AllHaveFields(expected);
    }
  }

  // ---- a reader that takes a line break at the end of the file as optional ----

  predicate EndsInBreak(text: string) { text != [] && text[|text| - 1] == '\n' }

  /** Rule 2 of section 2 of RFC 4180: a line break may follow the last record. */
  function ParseFile(text: string): Result<Records, string> {
    Parse(if EndsInBreak(text) then text[..|text| - 1] else text)
  }

  lemma {:induction false} JoinLast(parts: seq<string>, separator: char, last: string)
    requires parts != []
    ensures Join(parts + [last], separator) == Join(parts, separator) + [separator] + last
  {
    if |parts| > 1 {
      JoinLast(parts[1..], separator, last);
      assert (parts + [last])[1..] == parts[1..] + [last];
    }
  }

  lemma CellEnd(value: Value)
    ensures !EndsInBreak(CsvCell(value)) && (CsvCell(value) == "" <==> CellText(value) == "")
  {
    var s := CellText(value);
    assert !NeedsQuotes(s) && s != [] ==> s[|s| - 1] in s;
  }

  /** A printed line does not end in a line feed, and is empty only for one empty cell. */
  lemma LineEnd(values: seq<Value>)
    requires values != []
    ensures !EndsInBreak(Line(values))
    ensures Line(values) == "" <==> |values| == 1 && CellText(values[0]) == ""
  {
    hide CsvCell;
    var n := |values| - 1;
    CellEnd(values[n]);
    if n > 0 {
      var front := CsvCells(values[..n]);
      JoinLast(front, ',', CsvCell(values[n]));
      assert CsvCells(values) == front + [CsvCell(values[n])];
    }
  }

  /** The last line is empty, and there is one before it. */
  predicate EndsBlank(table: seq<seq<Value>>) {
    var n := |table| - 1;
    n > 0 && |table[n]| == 1 && CellText(table[n][0]) == ""
  }

  lemma TextEnd(table: seq<seq<Value>>)
    requires table != [] && forall i :: 0 <= i < |table| ==> table[i] != []
    ensures var text := Join(Lines(table), '\n');
            && (EndsInBreak(text) <==> EndsBlank(table))
            && (EndsBlank(table) ==> text == Join(Lines(table[..|table| - 1]), '\n') + ['\n'])
  {
    hide Line;
    var n := |table| - 1;
    LineEnd(table[n]);
    if n > 0 {
      var front := Lines(table[..n]);
      JoinLast(front, '\n', Line(table[n]));
      assert Lines(table) == front + [Line(table[n])];
    }
  }

  /** Such a reader gives the table back exactly when there is a column and the file
      does not end in a blank line, as it does for one column whose last cell is
      empty: that row is lost. */
  lemma FileRoundTripExact(rows: seq<RowObject>, columns: seq<string>)
    ensures ParseFile(ToCsv(rows, columns)) == Success(Table(rows, columns))
            <==> && columns != []
                 && !(|columns| == 1 && rows != [] && CellText(Property(rows[|rows| - 1], columns[0])) == "")
  {
    hide Read, Line, Texts;
    var text := ToCsv(rows, columns);
    if columns == [] {
      RecordsHaveFields(if EndsInBreak(text) then text[..|text| - 1] else text, Start, "", [], []);
      assert Table(rows, columns)[0] == columns && !AllHaveFields(Table(rows, columns));
    } else {
      var table := [HeaderValues(columns)] + Body(rows, columns);
      TextEnd(table);
      TableIsTexts(rows, columns);
      if EndsBlank(table) {
        var front := table[..|table| - 1];
        ReadLines(front, []);
        assert text[..|text| - 1] == Join(Lines(front), '\n');
        assert |[] + TextsOf(front)| < |Table(rows, columns)|;
      } else {
        RoundTripExact(rows, columns);
      }
    }
  }
}
