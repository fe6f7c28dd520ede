/** The dataset parser `parseCSV` of lib/nacebelData.ts: the text is split
    into lines, the columns are located by header name in line 0, and every
    later line that is not blank, has enough fields and is not of level 1
    becomes a record, in input order. */
module Dataset {
  import opened Wrappers
  import opened Strings
  import opened CsvLine
  import opened Records
  import Seqs

  /** The positions of the six columns; -1 where the header is missing. */
  datatype Columns = Columns(level: int, code: int, nl: int, fr: int, de: int, en: int)
  {
    /** `Math.max(levelIndex, codeIndex, ...) + 1`. */
    function Needed(): (n: int)
      ensures n > level && n > code && n > nl && n > fr && n > de && n > en
      ensures n - 1 in {level, code, nl, fr, de, en}
    {
      var m1 := if level > code then level else code;
      var m2 := if nl > fr then nl else fr;
      var m3 := if de > en then de else en;
      var m12 := if m1 > m2 then m1 else m2;
      (if m12 > m3 then m12 else m3) + 1
    }
  }

  /** `headers.findIndex((h) => h.trim() === name)`: the first matching
      position, or -1 when there is none. */
  function FindHeader(headers: seq<string>, name: string): (idx: int)
    ensures -1 <= idx < |headers|
    ensures idx >= 0 ==> Trim(headers[idx]) == name
    ensures forall i :: 0 <= i < |headers| && (idx < 0 || i < idx) ==> Trim(headers[i]) != name
  {
    if headers == [] then -1
    else if Trim(headers[0]) == name then 0
    else
      var rest := FindHeader(headers[1..], name);
      assert forall i :: 1 <= i < |headers| ==> headers[i] == headers[1..][i - 1];
      if rest < 0 then -1 else rest + 1
  }

  /** The column positions read from the header line, which is split on
      plain commas (not with the quote-aware tokeniser). */
  function HeaderColumns(headerLine: string): Columns
  {
    var headers := SplitOn(headerLine, ',');
    Columns(
      FindHeader(headers, "LEVEL"),
      FindHeader(headers, "CODE"),
      FindHeader(headers, "NATIONAL_TITLE_BE_NL"),
      FindHeader(headers, "NATIONAL_TITLE_BE_FR"),
      FindHeader(headers, "NATIONAL_TITLE_BE_DE"),
      FindHeader(headers, "NATIONAL_TITLE_BE_EN"))
  }

  /** `values[idx] || ""`: a missing column (index -1) reads as `undefined`,
      which becomes the empty string. */
  function Field(values: seq<string>, idx: int): string
  {
    if 0 <= idx < |values| then values[idx] else ""
  }

  /** `Number.parseInt(text, 10) || 0`: a level that does not parse is 0. */
  function LevelOf(text: string): int
  {
    ParseInt(text).GetOr(0)
  }

  /** The raw content of a kept row. */
  datatype RawRow = RawRow(level: int, code: string, titles: Titles)

  /** What one data line contributes: nothing for a blank line, otherwise
      what its fields give. */
  function KeptRow(line: string, cols: Columns): Option<RawRow>
  {
    if Trim(line) == [] then None else RowOf(ParseLine(line), cols)
  }

  /** Nothing for a line with too few fields or of level 1, otherwise its
      level, code and titles. */
  function RowOf(values: seq<string>, cols: Columns): Option<RawRow>
  {
    if |values| < cols.Needed() then None
    else
      var level := LevelOf(Field(values, cols.level));
      if level == 1 then None
      else Some(RawRow(level, Field(values, cols.code),
        Titles(Field(values, cols.en), Field(values, cols.de), Field(values, cols.fr), Field(values, cols.nl))))
  }

  /** The records of a run of data lines, in order. */
  function ParseRows(rows: seq<string>, cols: Columns): seq<Record>
  {
    if rows == [] then []
    else
      var before := ParseRows(rows[..|rows| - 1], cols);
      match KeptRow(rows[|rows| - 1], cols)
      case None => before
      case Some(raw) => before + [MakeRecord(raw.level, raw.code, raw.titles)]
  }

  /** `parseCSV`: line 0 is the header, every later line is data. */
  function ParseCSV(text: string): (codes: seq<Record>)
    ensures |codes| <= Count(text, '\n')
    ensures forall r :: r in codes ==> WellDerived(r) && r.level != 1
  {
    var lines := SplitOn(text, '\n');
    ParseRowsAtMostOne(lines[1..], HeaderColumns(lines[0]));
    ParsedRecordsWellDerived(lines[1..], HeaderColumns(lines[0]));
    ParseRows(lines[1..], HeaderColumns(lines[0]))
  }

  lemma {:induction false} ParseRowsConcat(a: seq<string>, b: seq<string>, cols: Columns)
    ensures ParseRows(a + b, cols) == ParseRows(a, cols) + ParseRows(b, cols)
  {
    if b == [] {
      assert a + b == a;
    } else {
      var b', x := b[..|b| - 1], b[|b| - 1];
      assert b == b' + [x];
      assert a + b == (a + b') + [x];
      ParseRowsConcat(a, b', cols);
      ParseRowsSnoc(a + b', x, cols);
      ParseRowsSnoc(b', x, cols);
    }
  }

  /** The output follows the input order: the records of two runs of lines
      are the records of the first followed by those of the second, and one
      line gives at most one record. */
  lemma RowsInOrder(a: seq<string>, b: seq<string>, cols: Columns)
    ensures ParseRows(a + b, cols) == ParseRows(a, cols) + ParseRows(b, cols)
    ensures |ParseRows(a, cols)| <= |a|
  {
    ParseRowsConcat(a, b, cols);
    ParseRowsAtMostOne(a, cols);
  }

  lemma {:induction false} ParseRowsAtMostOne(rows: seq<string>, cols: Columns)
    ensures |ParseRows(rows, cols)| <= |rows|
  {
    if rows != [] {
      ParseRowsAtMostOne(rows[..|rows| - 1], cols);
    }
  }

  /** A blank line (only white space) gives no record. */
  lemma BlankRowSkipped(line: string, cols: Columns)
    requires AllSpace(line)
    ensures KeptRow(line, cols) == None
  {
    TrimAllSpace(line);
  }

  /** A line with fewer fields than the highest column position needs gives
      no record. */
  lemma ShortRowSkipped(line: string, cols: Columns)
    requires |ParseLine(line)| < cols.Needed()
    ensures KeptRow(line, cols) == None
  {
  }

  /** A level-1 line gives no record. */
  lemma LevelOneSkipped(line: string, cols: Columns)
    requires ParseInt(Field(ParseLine(line), cols.level)) == Some(1)
    ensures KeptRow(line, cols) == None
  {
  }

  /** A non-blank, long enough line whose level does not parse is kept, with
      level 0. */
  lemma UnparseableLevelKept(line: string, cols: Columns)
    requires Trim(line) != []
    requires |ParseLine(line)| >= cols.Needed()
    requires ParseInt(Field(ParseLine(line), cols.level)) == None
    ensures KeptRow(line, cols).Some? && KeptRow(line, cols).value.level == 0
  {
  }

  /** Every parsed record has its derived fields computed from its raw
      fields, and none is of level 1. */
  lemma {:induction false} ParsedRecordsWellDerived(rows: seq<string>, cols: Columns)
    ensures forall r :: r in ParseRows(rows, cols) ==> WellDerived(r) && r.level != 1
  {
    if rows != [] {
      ParsedRecordsWellDerived(rows[..|rows| - 1], cols);
    }
  }

  /** When no header is `LEVEL`, no error is raised: every row is read with
      level 0. */
  lemma {:induction false} MissingLevelHeader(rows: seq<string>, cols: Columns)
    requires cols.level == -1
    ensures forall r :: r in ParseRows(rows, cols) ==> r.level == 0
  {
    if rows != [] {
      MissingLevelHeader(rows[..|rows| - 1], cols);
      assert Field(ParseLine(rows[|rows| - 1]), -1) == "";
      ParseIntBlank("");
    }
  }

  /** Line 0 is only ever the header: a document is its header line and the
      data lines after it, and every record comes from a data line. */
  lemma HeaderIsNotData(header: string, body: string)
    requires '\n' !in header
    ensures ParseCSV(header + "\n" + body) == ParseRows(SplitOn(body, '\n'), HeaderColumns(header))
  {
    assert header + "\n" + body == header + ['\n'] + body;
    SplitOnFirst(header, '\n', body);
    assert ([header] + SplitOn(body, '\n'))[1..] == SplitOn(body, '\n');
  }

  /** The field a data line holds under the header `name`:
      `values[headers.findIndex((h) => h.trim() === name)] || ""`. */
  function Column(values: seq<string>, headerLine: string, name: string): string
  {
    Field(values, FindHeader(SplitOn(headerLine, ','), name))
  }

  /** A document of a header line and one data line. A data line that is
      not blank, has enough fields and is not of level 1 becomes exactly
      one record, whose level is its parsed LEVEL field (0 when that does
      not parse), and whose code and titles are its fields under the CODE
      and NATIONAL_TITLE_BE_* headers; any other data line gives nothing.
      With `RowsInOrder`, this says what every line of a longer document
      contributes. */
  lemma OneDataLine(header: string, line: string)
    requires '\n' !in header && '\n' !in line
    ensures var v := ParseLine(line);
      var level := LevelOf(Column(v, header, "LEVEL"));
      var kept := Trim(line) != [] && |v| >= HeaderColumns(header).Needed() && level != 1;
      var titles := Titles(Column(v, header, "NATIONAL_TITLE_BE_EN"), Column(v, header, "NATIONAL_TITLE_BE_DE"),
                           Column(v, header, "NATIONAL_TITLE_BE_FR"), Column(v, header, "NATIONAL_TITLE_BE_NL"));
      && (kept ==> ParseCSV(header + "\n" + line) == [MakeRecord(level, Column(v, header, "CODE"), titles)])
      && (!kept ==> ParseCSV(header + "\n" + line) == [])
  {
    HeaderIsNotData(header, line);
    SplitOnAbsent(line, '\n');
    assert [line][..0] == [];
  }

  lemma ParseRowsSnoc(rows: seq<string>, line: string, cols: Columns)
    ensures ParseRows(rows + [line], cols) ==
            match KeptRow(line, cols)
            case None => ParseRows(rows, cols)
            case Some(raw) => ParseRows(rows, cols) + [MakeRecord(raw.level, raw.code, raw.titles)]
  {
    assert (rows + [line])[..|rows + [line]| - 1] == rows;
  }

  /** The body of the `parseCSV` loop for one data line: a blank line, a
      line with too few fields and a level-1 line are skipped, any other
      line gives its level, code and titles. */
  method ReadDataLine(line: string, cols: Columns) returns (row: Option<RawRow>)
    ensures row == KeptRow(line, cols)
  {
    if Trim(line) == [] {
      return None;
    }
    var values := ParseCSVLine(line);
    if |values| < cols.Needed() {
      return None;
    }
    var level := LevelOf(Field(values, cols.level));
    if level == 1 {
      return None;
    }
    var code := Field(values, cols.code);
    var titles := Titles(Field(values, cols.en), Field(values, cols.de), Field(values, cols.fr), Field(values, cols.nl));
    row := Some(RawRow(level, code, titles));
  }

  /** `parseCSV`. */
  method ParseCSVText(text: string) returns (codes: seq<Record>)
    ensures codes == ParseCSV(text)
    ensures forall r :: r in codes ==> WellDerived(r) && r.level != 1
  {
    var lines := SplitOn(text, '\n');
    var cols := HeaderColumns(lines[0]);
    codes := [];
    for i := 1 to |lines|
      invariant codes == ParseRows(lines[1..i], cols)
    {
      Seqs.SliceSnoc(lines, 1, i);
      ParseRowsSnoc(lines[1..i], lines[i], cols);
      var row := ReadDataLine(lines[i], cols);
      if row.Some? {
        codes := codes + [MakeRecord(row.value.level, row.value.code, row.value.titles)];
      }
    }
    assert lines[1..|lines|] == lines[1..];
    ParsedRecordsWellDerived(lines[1..], cols);
  }
}
