/** A reader for comma-separated files as section 2 of RFC 4180 describes them, taking LF as well as CRLF. */
module CsvReader {
  import opened Prelude

  /** Characters that end or cannot occur in a field without quotes. */
  predicate IsSpecial(c: char) {
    c == ',' || c == '"' || c == '\n' || c == '\r'
  }

  /** The longest unquoted field at the front, and what follows it. */
  function ReadPlain(s: string): (r: (string, string))
    ensures |r.1| <= |s|
  {
    if s == "" || IsSpecial(s[0]) then ("", s)
    else
      var (text, rest) := ReadPlain(s[1..]);
      ([s[0]] + text, rest)
  }

  /** The rest of a quoted field: a doubled quote stands for one, a single quote closes the field. */
  function ReadQuoted(s: string): (r: Option<(string, string)>)
    ensures r.Some? ==> |r.value.1| < |s|
  {
    if s == "" then None
    else if s[0] == '"' && |s| > 1 && s[1] == '"' then
      match ReadQuoted(s[2..]) case None => None case Some((text, rest)) => Some(("\"" + text, rest))
    else if s[0] == '"' then Some(("", s[1..]))
    else
      match ReadQuoted(s[1..]) case None => None case Some((text, rest)) => Some(([s[0]] + text, rest))
  }

  function ReadField(s: string): (r: Option<(string, string)>)
    ensures r.Some? ==> |r.value.1| <= |s|
  {
    if s != "" && s[0] == '"' then ReadQuoted(s[1..]) else Some(ReadPlain(s))
  }

  /** One record: fields separated by commas, up to a line break or the end of the file. */
  function ReadRecord(s: string): (r: Option<(seq<string>, string)>)
    ensures r.Some? && s != "" ==> |r.value.1| < |s|
    decreases |s|
  {
    match ReadField(s)
    case None => None
    case Some((text, rest)) =>
      if rest == "" then Some(([text], ""))
      else if rest[0] == ',' then
        match ReadRecord(rest[1..]) case None => None case Some((more, tail)) => Some(([text] + more, tail))
      else if rest[0] == '\n' then Some(([text], rest[1..]))
      else if |rest| > 1 && rest[0] == '\r' && rest[1] == '\n' then Some(([text], rest[2..]))
      else None
  }

  function ReadFile(s: string): Option<seq<seq<string>>>
    decreases |s|
  {
    if s == "" then Some([])
    else
      match ReadRecord(s)
      case None => None
      case Some((record, rest)) =>
        match ReadFile(rest) case None => None case Some(records) => Some([record] + records)
  }
}

/** The audit-log export: quoting of cells, rows and the whole file. */
module CsvExport {
  import opened Prelude
  import opened CsvReader

  /** One audit row; the timestamp is already ISO text and the payload JSON text. */
  datatype AuditRow = AuditRow(
    id: string, timestamp: string, actorId: string, actorUsername: Option<string>, action: string,
    targetType: Option<string>, targetId: Option<string>, ip: Option<string>, payload: Option<string>)

  const CSV_COLUMNS: seq<string> :=
    ["id", "timestamp", "actorId", "actorUsername", "action", "targetType", "targetId", "ip", "payload"]

  /** Characters a spreadsheet takes as the start of a formula. */
  predicate StartsFormula(c: char) {
    c == '=' || c == '+' || c == '-' || c == '@' || c == '\t' || c == '\r'
  }

  function Neutralised(value: Option<string>): string {
    var text := if value.Some? then value.value else "";
    if text != "" && StartsFormula(text[0]) then "'" + text else text
  }

  predicate NeedsQuotes(text: string) {
    exists i :: 0 <= i < |text| && IsSpecial(text[i])
  }

  function DoubleQuotes(text: string): string {
    if text == "" then ""
    else (if text[0] == '"' then "\"\"" else [text[0]]) + DoubleQuotes(text[1..])
  }

  function CsvCell(value: Option<string>): string {
    var text := Neutralised(value);
    if NeedsQuotes(text) then "\"" + DoubleQuotes(text) + "\"" else text
  }

  function Cells(row: AuditRow): seq<Option<string>> {
    [Some(row.id), Some(row.timestamp), Some(row.actorId), row.actorUsername, Some(row.action),
     row.targetType, row.targetId, row.ip, if row.payload.Some? then row.payload else Some("")]
  }

  function Join(fields: seq<string>): string {
    if fields == [] then ""
    else if |fields| == 1 then fields[0]
    else fields[0] + "," + Join(fields[1..])
  }

  function MapCells(cells: seq<Option<string>>): seq<string> {
    seq(|cells|, i requires 0 <= i < |cells| => CsvCell(cells[i]))
  }

  function Texts(cells: seq<Option<string>>): seq<string> {
    seq(|cells|, i requires 0 <= i < |cells| => Neutralised(cells[i]))
  }

  function Line(cells: seq<Option<string>>): string {
    Join(MapCells(cells))
  }

  function Table(rows: seq<AuditRow>): seq<seq<Option<string>>> {
    seq(|rows|, i requires 0 <= i < |rows| => Cells(rows[i]))
  }

  function Lines(table: seq<seq<Option<string>>>): string {
    if table == [] then "" else Line(table[0]) + ("\n" + Lines(table[1..]))
  }

  /** The cell texts a reader should find, row by row. */
  function TextRows(table: seq<seq<Option<string>>>): (r: seq<seq<string>>)
    ensures |r| == |table| && forall i :: 0 <= i < |r| ==> r[i] == Texts(table[i])
  {
    if table == [] then [] else [Texts(table[0])] + TextRows(table[1..])
  }

  function FileText(columns: seq<string>, table: seq<seq<Option<string>>>): string {
    Join(columns) + ("\n" + Lines(table))
  }

  /** Streams the header and then one line per row; the file reads back as exactly those rows. */
  method Export(rows: seq<AuditRow>) returns (out: string)
    ensures out == FileText(CSV_COLUMNS, Table(rows))
    ensures ReadFile(out) == Some([CSV_COLUMNS] + TextRows(Table(rows)))
    ensures ReadFile(out).Some? && ReadsAs(ReadFile(out).value, rows)
  {
    ghost var table := Table(rows);
    ColumnsArePlain();
    ExportReadsBack(CSV_COLUMNS, table);
    RowsReadAs(CSV_COLUMNS, rows);
    out := WriteFile(CSV_COLUMNS, rows);
  }

  /** What a row holds under the name of a column. */
  function FieldOf(row: AuditRow, column: string): Option<string> {
    if column == "id" then Some(row.id)
    else if column == "timestamp" then Some(row.timestamp)
    else if column == "actorId" then Some(row.actorId)
    else if column == "actorUsername" then row.actorUsername
    else if column == "action" then Some(row.action)
    else if column == "targetType" then row.targetType
    else if column == "targetId" then row.targetId
    else if column == "ip" then row.ip
    else if column == "payload" then row.payload
    else None
  }

  /** The header names the nine columns, and below each name stands every row's field of that name. */
  ghost predicate ReadsAs(records: seq<seq<string>>, rows: seq<AuditRow>) {
    && |records| == |rows| + 1
    && NineColumns(records[0])
    && forall i :: 0 <= i < |rows| ==> |records[i + 1]| == 9 && Tells(records[i + 1], rows[i])
  }

  ghost predicate NineColumns(header: seq<string>) {
    header == ["id", "timestamp", "actorId", "actorUsername", "action", "targetType", "targetId", "ip", "payload"]
  }

  ghost predicate Tells(texts: seq<string>, row: AuditRow)
    requires |texts| == 9
  {
    forall c :: 0 <= c < 9 ==> texts[c] == Neutralised(FieldOf(row, CSV_COLUMNS[c]))
  }

  /** The columns are told apart by length but for two pairs, which differ in a letter. */
  lemma ColumnsDiffer()
    ensures forall c, d :: 0 <= c < d < 9 ==> CSV_COLUMNS[c] != CSV_COLUMNS[d]
  {
    assert "timestamp"[0] == 't' && "actorId"[0] == 'a' && "payload"[0] == 'p';
    assert "id"[1] == 'd' && "ip"[1] == 'p';
  }

  lemma CellsTell(row: AuditRow)
    ensures |Texts(Cells(row))| == 9 && Tells(Texts(Cells(row)), row)
  {
    var texts := Texts(Cells(row));
    ColumnsDiffer();
    forall c | 0 <= c < 9
      ensures texts[c] == Neutralised(FieldOf(row, CSV_COLUMNS[c]))
    {
      assert texts[c] == Neutralised(Cells(row)[c]);
    }
  }

  lemma RowsReadAs(header: seq<string>, rows: seq<AuditRow>)
    requires NineColumns(header)
    ensures ReadsAs([header] + TextRows(Table(rows)), rows)
  {
    var texts := TextRows(Table(rows));
    var records := [header] + texts;
    assert records[0] == header;
    forall i | 0 <= i < |rows|
      ensures |records[i + 1]| == 9 && Tells(records[i + 1], rows[i])
    {
      assert records[i + 1] == texts[i] == Texts(Cells(rows[i]));
      CellsTell(rows[i]);
    }
  }

  method WriteFile(columns: seq<string>, rows: seq<AuditRow>) returns (out: string)
    ensures out == FileText(columns, Table(rows))
  {
    out := Join(columns) + "\n";
    ghost var table := Table(rows);
    for i := 0 to |rows|
      invariant out == FileText(columns, table[..i])
    {
      var line := Line(Cells(rows[i]));
      OneMoreLine(columns, table, i);
      out := out + (line + "\n");
    }
    assert table[..|rows|] == table;
  }

  lemma OneMoreLine(columns: seq<string>, table: seq<seq<Option<string>>>, i: nat)
    requires i < |table|
    ensures FileText(columns, table[..i + 1]) == FileText(columns, table[..i]) + (Line(table[i]) + "\n")
  {
    assert table[..i + 1] == table[..i] + [table[i]];
    LinesAppend(table[..i], table[i]);
  }

  lemma {:induction false} LinesAppend(table: seq<seq<Option<string>>>, cells: seq<Option<string>>)
    ensures Lines(table + [cells]) == Lines(table) + (Line(cells) + "\n")
  {
    if table == [] {
      assert table + [cells] == [cells];
      assert Lines([cells]) == Line(cells) + ("\n" + "");
    } else {
      assert (table + [cells])[1..] == table[1..] + [cells];
      LinesAppend(table[1..], cells);
    }
  }

  // ----- Reading back -----

  /** A field ends here: at the end of the file, a comma or a line feed. */
  predicate Ends(rest: string) {
    rest == "" || rest[0] == ',' || rest[0] == '\n'
  }

  lemma {:induction false} PlainReadsBack(text: string, rest: string)
    requires !NeedsQuotes(text) && Ends(rest)
    ensures ReadPlain(text + rest) == (text, rest)
  {
    if text == "" {
      assert text + rest == rest;
    } else {
      assert !IsSpecial(text[0]);
      assert (text + rest)[1..] == text[1..] + rest;
      assert forall i :: 0 <= i < |text[1..]| ==> text[1..][i] == text[i + 1];
      PlainReadsBack(text[1..], rest);
      assert [text[0]] + text[1..] == text;
    }
  }

  lemma {:induction false} QuotedReadsBack(text: string, rest: string)
    requires rest == "" || rest[0] != '"'
    ensures ReadQuoted(DoubleQuotes(text) + "\"" + rest) == Some((text, rest))
  {
    var s := DoubleQuotes(text) + "\"" + rest;
    if text == "" {
      assert s == "\"" + rest;
      assert s[1..] == rest;
    } else {
      var tail := DoubleQuotes(text[1..]) + "\"" + rest;
      QuotedReadsBack(text[1..], rest);
      if text[0] == '"' {
        assert s == "\"\"" + tail;
        assert s[2..] == tail;
      } else {
        assert s == [text[0]] + tail;
        assert s[1..] == tail;
      }
      assert [text[0]] + text[1..] == text;
    }
  }

  lemma QuotedFieldReadsBack(text: string, rest: string)
    requires Ends(rest)
    ensures ReadField("\"" + DoubleQuotes(text) + "\"" + rest) == Some((text, rest))
  {
    QuotedReadsBack(text, rest);
    InFront("\"", DoubleQuotes(text), "\"", rest);
    OpensQuoted(DoubleQuotes(text) + "\"" + rest);
  }

  lemma InFront(a: string, b: string, c: string, d: string)
    ensures a + b + c + d == a + (b + c + d) == a + b + (c + d)
  {
  }

  lemma OpensQuoted(inner: string)
    ensures ReadField("\"" + inner) == ReadQuoted(inner)
  {
    assert ("\"" + inner)[1..] == inner;
  }

  lemma PlainFieldReadsBack(text: string, rest: string)
    requires Ends(rest) && !NeedsQuotes(text)
    ensures ReadField(text + rest) == Some((text, rest))
  {
    PlainReadsBack(text, rest);
    if text == "" {
      assert text + rest == rest;
    } else {
      assert !IsSpecial(text[0]);
    }
  }

  lemma CellReadsBack(value: Option<string>, rest: string)
    requires Ends(rest)
    ensures ReadField(CsvCell(value) + rest) == Some((Neutralised(value), rest))
  {
    var text := Neutralised(value);
    if NeedsQuotes(text) {
      QuotedFieldReadsBack(text, rest);
    } else {
      PlainFieldReadsBack(text, rest);
    }
  }

  /** Followed by any separator, the field is read as the text. */
  ghost predicate Writes(field: string, text: string) {
    forall rest :: Ends(rest) ==> ReadField(field + rest) == Some((text, rest))
  }

  lemma CellWritesText(value: Option<string>)
    ensures Writes(CsvCell(value), Neutralised(value))
  {
    forall rest | Ends(rest)
      ensures ReadField(CsvCell(value) + rest) == Some((Neutralised(value), rest))
    {
      CellReadsBack(value, rest);
    }
  }

  lemma {:induction false} FieldsReadBack(fields: seq<string>, texts: seq<string>, tail: string)
    requires fields != [] && |texts| == |fields|
    requires forall i :: 0 <= i < |fields| ==> Writes(fields[i], texts[i])
    ensures ReadRecord(Join(fields) + ("\n" + tail)) == Some((texts, tail))
    decreases |fields|
  {
    assert Writes(fields[0], texts[0]);
    if |fields| == 1 {
      LastField(fields[0], texts[0], tail);
      assert texts == [texts[0]];
    } else {
      var more := Join(fields[1..]) + ("\n" + tail);
      FieldsReadBack(fields[1..], texts[1..], tail);
      FieldThenMore(fields[0], texts[0], more, texts[1..], tail);
      InFront(fields[0], ",", Join(fields[1..]), "\n" + tail);
      Associated(fields[0], ",", more);
      assert texts == [texts[0]] + texts[1..];
    }
  }

  lemma Associated(a: string, b: string, c: string)
    ensures a + b + c == a + (b + c)
  {
  }

  lemma LastField(field: string, text: string, tail: string)
    requires Writes(field, text)
    ensures ReadRecord(field + ("\n" + tail)) == Some(([text], tail))
  {
    assert Ends("\n" + tail) && ("\n" + tail)[1..] == tail;
  }

  lemma FieldThenMore(field: string, text: string, more: string, texts: seq<string>, tail: string)
    requires Writes(field, text) && ReadRecord(more) == Some((texts, tail))
    ensures ReadRecord(field + ("," + more)) == Some(([text] + texts, tail))
  {
    assert Ends("," + more) && ("," + more)[1..] == more;
  }

  lemma LineReadsBack(cells: seq<Option<string>>, tail: string)
    requires cells != []
    ensures ReadRecord(Line(cells) + ("\n" + tail)) == Some((Texts(cells), tail))
  {
    forall i | 0 <= i < |cells|
      ensures Writes(MapCells(cells)[i], Texts(cells)[i])
    {
      CellWritesText(cells[i]);
    }
    FieldsReadBack(MapCells(cells), Texts(cells), tail);
  }

  /** A file whose front reads as one record reads as that record and then its rest. */
  lemma RecordThenRest(front: string, tail: string, record: seq<string>)
    requires ReadRecord(front + ("\n" + tail)) == Some((record, tail)) && ReadFile(tail).Some?
    ensures ReadFile(front + ("\n" + tail)) == Some([record] + ReadFile(tail).value)
  {
    assert front + ("\n" + tail) != "";
  }

  lemma {:induction false} LinesReadBack(table: seq<seq<Option<string>>>)
    requires forall i :: 0 <= i < |table| ==> table[i] != []
    ensures ReadFile(Lines(table)) == Some(TextRows(table))
  {
    if table != [] {
      LinesReadBack(table[1..]);
      LineReadsBack(table[0], Lines(table[1..]));
      RecordThenRest(Line(table[0]), Lines(table[1..]), Texts(table[0]));
    }
  }

  /** A word that needs neither quotes nor a guard, so that it can be written as it is. */
  predicate Plain(word: string) {
    CsvCell(Some(word)) == word && Neutralised(Some(word)) == word
  }

  lemma HeaderReadsBack(columns: seq<string>, tail: string)
    requires columns != [] && forall i :: 0 <= i < |columns| ==> Plain(columns[i])
    ensures ReadRecord(Join(columns) + ("\n" + tail)) == Some((columns, tail))
  {
    forall i | 0 <= i < |columns|
      ensures Writes(columns[i], columns[i])
    {
      assert Plain(columns[i]);
      CellWritesText(Some(columns[i]));
    }
    FieldsReadBack(columns, columns, tail);
  }

  predicate Letters(w: string) {
    forall i :: 0 <= i < |w| ==> 'A' <= w[i] <= 'z'
  }

  lemma LettersArePlain(w: string)
    requires Letters(w)
    ensures Plain(w)
  {
  }

  lemma ColumnsArePlain()
    ensures forall i :: 0 <= i < |CSV_COLUMNS| ==> Plain(CSV_COLUMNS[i])
  {
    assert Letters("id") && Letters("timestamp") && Letters("actorId") && Letters("actorUsername")
           && Letters("action") && Letters("targetType") && Letters("targetId") && Letters("ip") && Letters("payload");
    forall i | 0 <= i < |CSV_COLUMNS|
      ensures Plain(CSV_COLUMNS[i])
    {
      LettersArePlain(CSV_COLUMNS[i]);
    }
  }

  /**
   * Every export reads back as its rows, cell by cell, whatever commas, quotes
   * and line breaks the cells contain.
   */
  lemma {:induction false} ExportReadsBack(columns: seq<string>, table: seq<seq<Option<string>>>)
    requires columns != [] && forall i :: 0 <= i < |columns| ==> Plain(columns[i])
    requires forall i :: 0 <= i < |table| ==> table[i] != []
    ensures ReadFile(FileText(columns, table)) == Some([columns] + TextRows(table))
  {
    LinesReadBack(table);
    HeaderReadsBack(columns, Lines(table));
    RecordThenRest(Join(columns), Lines(table), columns);
  }

  // ----- Neutralising -----

  /**
   * No exported cell opens as a formula: a text with such a first character gets
   * an apostrophe in front, any other text stays as it is, and null leaves the cell empty.
   */
  lemma NeverAFormula(text: string)
    ensures var n := Neutralised(Some(text)); n == "" || n[0] !in ['=', '+', '-', '@', '\t', '\r']
    ensures Neutralised(Some(text)) == text <==> text == "" || text[0] !in ['=', '+', '-', '@', '\t', '\r']
    ensures Neutralised(Some(text)) == text || Neutralised(Some(text)) == "'" + text
    ensures Neutralised(None) == ""
  {
    assert |"'" + text| == |text| + 1;
  }

  /** Quotes go around a cell exactly when its text holds a comma, a quote or a line break. */
  lemma QuotedExactlyWhen(value: Option<string>)
    ensures var text := Neutralised(value);
            && (CsvCell(value) == text <==> forall i :: 0 <= i < |text| ==> text[i] !in [',', '"', '\n', '\r'])
            && (CsvCell(value) != text ==> |CsvCell(value)| >= 2 && CsvCell(value)[0] == '"'
                                           && CsvCell(value)[|CsvCell(value)| - 1] == '"')
  {
    var text := Neutralised(value);
    assert forall c: char :: IsSpecial(c) <==> c in [',', '"', '\n', '\r'];
    DoublingLengthens(text);
    assert NeedsQuotes(text) ==> |CsvCell(value)| > |text|;
  }

  lemma {:induction false} DoublingLengthens(text: string)
    ensures |DoubleQuotes(text)| >= |text|
  {
    if text != "" {
      DoublingLengthens(text[1..]);
    }
  }

  /** Two different texts export alike exactly when one is the other, a formula, with the guard in front. */
  lemma WhatNeutralisingMerges(a: string, b: string)
    ensures Neutralised(Some(a)) == Neutralised(Some(b))
       <==> a == b
            || (b != "" && StartsFormula(b[0]) && a == "'" + b)
            || (a != "" && StartsFormula(a[0]) && b == "'" + a)
  {
    assert forall x: string, y: string :: "'" + x == "'" + y ==> x == ("'" + x)[1..] == y;
  }
}
