/**
 * The reader of the STR database: a CSV file whose first non-blank line names
 * the STRs (after a first column for names) and whose other non-blank lines
 * give a person's name and STR counts. The file is a sequence of lines.
 */
module DnaFiles {
  import opened Wrappers
  import opened JavaText
  import opened DnaRecords

  /** The exceptions the reader lets escape: no non-blank line at all (an array
      of negative size, or the missing header), a row with no cells, and a
      count cell that Integer.parseInt rejects (row and column of the cell). */
  datatype ParseError = NoData | EmptyRow(row: nat) | BadCount(row: nat, column: nat)

  // ---------------------------------------------------------------------------
  // readDataFromCSV
  // ---------------------------------------------------------------------------

  /** The lines that are not blank, in order. */
  function NonBlank(lines: seq<string>): seq<string>
    decreases |lines|
  {
    if lines == [] then []
    else
      var last := lines[|lines| - 1];
      NonBlank(lines[..|lines| - 1]) + (if IsBlank(last) then [] else [last])
  }

  /** Each non-blank line occurs in NonBlank as often as in the file; a blank line not at all. */
  lemma {:induction false} NonBlankCounts(lines: seq<string>)
    ensures forall x :: multiset(NonBlank(lines))[x] == if IsBlank(x) then 0 else multiset(lines)[x]
    decreases |lines|
  {
    if lines != [] {
      var init := lines[..|lines| - 1];
      NonBlankCounts(init);
      assert lines == init + [lines[|lines| - 1]];
    }
  }

  /** The rows of the CSV: each non-blank line split on commas. */
  function Rows(lines: seq<string>): seq<seq<string>>
    decreases |lines|
  {
    if lines == [] then []
    else
      var last := lines[|lines| - 1];
      Rows(lines[..|lines| - 1]) + (if IsBlank(last) then [] else [Split(last, ",")])
  }

  /** There is one row per non-blank line, and it is that line split on commas. */
  lemma {:induction false} RowsAreSplitLines(lines: seq<string>)
    ensures |Rows(lines)| == |NonBlank(lines)|
    ensures forall k :: 0 <= k < |Rows(lines)| ==> Rows(lines)[k] == Split(NonBlank(lines)[k], ",")
    decreases |lines|
  {
    if lines != [] {
      RowsAreSplitLines(lines[..|lines| - 1]);
    }
  }

  /** readDataFromCSV: the rows, or NoData when there are none (the array of
      `columns` = -1 columns cannot be created). */
  function CsvData(lines: seq<string>): Result<seq<seq<string>>, ParseError> {
    if |Rows(lines)| == 0 then Failure(NoData) else Success(Rows(lines))
  }

  /** readDataFromCSV as the loop over the Scanner's lines. */
  method ReadDataFromCSV(file: seq<string>) returns (r: Result<seq<seq<string>>, ParseError>)
    ensures r == CsvData(file)
  {
    var lines: seq<seq<string>> := [];
    var columns := -1;
    for i := 0 to |file|
      invariant lines == Rows(file[..i])
      invariant columns == -1 <==> |lines| == 0
    {
      assert file[..i + 1][..i] == file[..i];
      var line := file[i];
      if IsBlank(line) {
        continue;
      }
      var lineData := Split(line, ",");
      lines := lines + [lineData];
      if columns == -1 {
        columns := |lineData|;
      }
    }
    assert file[..|file|] == file;
    if columns == -1 {
      r := Failure(NoData);
    } else {
      r := Success(lines);
    }
  }

  // ---------------------------------------------------------------------------
  // parseDNA
  // ---------------------------------------------------------------------------

  /** The header's STRs: every cell after the first, upper-cased, in order. */
  function Header(headerRow: seq<string>): (repeats: seq<string>)
    requires |headerRow| > 0
    ensures |repeats| == |headerRow| - 1
    ensures forall i :: 0 <= i < |repeats| ==> repeats[i] == ToUpper(headerRow[i + 1])
  {
    seq(|headerRow| - 1, i requires 0 <= i < |headerRow| - 1 => ToUpper(headerRow[i + 1]))
  }

  /** Integer.parseInt of each cell in order; a failure names the first cell
      (by index) that does not parse. */
  function ParseCounts(cells: seq<string>): (r: Result<seq<int>, nat>)
    ensures r.Success? <==> forall j :: 0 <= j < |cells| ==> ParseInt(cells[j]).Some?
    ensures r.Success? ==> |r.value| == |cells| && forall j :: 0 <= j < |cells| ==> ParseInt(cells[j]) == Some(r.value[j])
    ensures r.Failure? ==> r.error < |cells| && ParseInt(cells[r.error]).None?
                           && forall j :: 0 <= j < r.error ==> ParseInt(cells[j]).Some?
    decreases |cells|
  {
    if cells == [] then Success([])
    else
      var n := |cells| - 1;
      var init := cells[..n];
      assert forall j :: 0 <= j < n ==> init[j] == cells[j];
      match ParseCounts(init)
      case Failure(k) => Failure(k)
      case Success(values) =>
        match ParseInt(cells[n])
        case None => Failure(n)
        case Some(v) => Success(values + [v])
  }

  /** One person's row: the name from the first cell and the counts from the
      rest, or the exception the row raises (`i` is its index in the data). */
  function ParseRow(row: seq<string>, i: nat): Result<Person, ParseError> {
    if |row| == 0 then Failure(EmptyRow(i))
    else
      match ParseCounts(row[1..])
      case Failure(k) => Failure(BadCount(i, k + 1))
      case Success(values) => Success(Person(row[0], values))
  }

  /** The people of rows 1 up to `m`, in row order, or the first row's exception. */
  function ParsePeople(data: seq<seq<string>>, m: nat): (r: Result<seq<Person>, ParseError>)
    requires 1 <= m <= |data|
    ensures r.Success? ==> |r.value| == m - 1 && forall i :: 1 <= i < m ==> ParseRow(data[i], i) == Success(r.value[i - 1])
    ensures r.Failure? <==> exists i :: 1 <= i < m && ParseRow(data[i], i).Failure?
    ensures r.Failure? ==> exists i :: 1 <= i < m && ParseRow(data[i], i) == Failure(r.error)
                             && forall k :: 1 <= k < i ==> ParseRow(data[k], k).Success?
    decreases m
  {
    if m == 1 then Success([])
    else
      match ParsePeople(data, m - 1)
      case Failure(e) => Failure(e)
      case Success(people) =>
        match ParseRow(data[m - 1], m - 1)
        case Failure(e) => Failure(e)
        case Success(p) => Success(people + [p])
  }

  /** parseDNA: the STRs of the header and the people of the other rows. */
  function ParseData(data: seq<seq<string>>): Result<(seq<string>, seq<Person>), ParseError> {
    if |data| == 0 then Failure(NoData)
    else if |data[0]| == 0 then Failure(EmptyRow(0))
    else
      match ParsePeople(data, |data|)
      case Failure(e) => Failure(e)
      case Success(people) => Success((Header(data[0]), people))
  }

  /** A successful parse has the header's STRs, upper-cased, and one person per
      later row, in row order, named by the row's first cell and holding the
      row's other cells as integers, in order. */
  lemma ParsedData(data: seq<seq<string>>)
    requires ParseData(data).Success?
    ensures var (repeats, people) := ParseData(data).value;
      && |data| > 0 && |data[0]| > 0
      && |repeats| == |data[0]| - 1
      && (forall i :: 0 <= i < |repeats| ==> repeats[i] == ToUpper(data[0][i + 1]))
      && |people| == |data| - 1
      && forall i :: 1 <= i < |data| ==>
           && |data[i]| > 0
           && people[i - 1].name == data[i][0]
           && |people[i - 1].dnaRepeats| == |data[i]| - 1
           && forall j :: 1 <= j < |data[i]| ==> ParseInt(data[i][j]) == Some(people[i - 1].dnaRepeats[j - 1])
  {
    var people := ParseData(data).value.1;
    forall i | 1 <= i < |data|
      ensures |data[i]| > 0 && people[i - 1].name == data[i][0]
      ensures |people[i - 1].dnaRepeats| == |data[i]| - 1
      ensures forall j :: 1 <= j < |data[i]| ==> ParseInt(data[i][j]) == Some(people[i - 1].dnaRepeats[j - 1])
    {
      assert ParseRow(data[i], i) == Success(people[i - 1]);
      var cells := data[i][1..];
      assert forall j :: 1 <= j < |data[i]| ==> data[i][j] == cells[j - 1];
    }
  }

  /** Parsing fails exactly when there is no row, some row has no cells, or some
      count cell is not an integer. */
  lemma ParseFailsIff(data: seq<seq<string>>)
    ensures ParseData(data).Failure? <==>
      || |data| == 0
      || (exists i :: 0 <= i < |data| && |data[i]| == 0)
      || (exists i, j :: 0 <= i < |data| && 1 <= j < |data[i]| && i > 0 && ParseInt(data[i][j]).None?)
  {
    if |data| > 0 && |data[0]| > 0 {
      if ParseData(data).Failure? {
        var i :| 1 <= i < |data| && ParseRow(data[i], i).Failure?;
        if |data[i]| > 0 {
          var k := ParseCounts(data[i][1..]).error;
          assert data[i][k + 1] == data[i][1..][k];
        }
      } else {
        forall i | 0 <= i < |data|
          ensures |data[i]| > 0
          ensures forall j :: 1 <= j < |data[i]| && i > 0 ==> ParseInt(data[i][j]).Some?
        {
          if i > 0 {
            assert ParseRow(data[i], i).Success?;
            var cells := data[i][1..];
            assert forall j :: 1 <= j < |data[i]| ==> data[i][j] == cells[j - 1];
          }
        }
      }
    }
  }

  /** Once row `m` is the first to fail, the whole parse fails with its exception. */
  lemma FirstFailingRow(data: seq<seq<string>>, m: nat)
    requires 1 <= m < |data|
    requires ParsePeople(data, m).Success? && ParseRow(data[m], m).Failure?
    ensures ParsePeople(data, |data|) == Failure(ParseRow(data[m], m).error)
  {
    var r := ParsePeople(data, |data|);
    assert r.Failure?;
    var i :| 1 <= i < |data| && ParseRow(data[i], i) == Failure(r.error)
              && forall k :: 1 <= k < i ==> ParseRow(data[k], k).Success?;
  }

  /** The reader: the STRs and the people of one database file. */
  class DNAFileParser {
    var repeats: seq<string>
    var people: seq<Person>

    /** An object not yet filled by ParseDNA; only Open creates one. */
    constructor Empty()
      ensures repeats == [] && people == []
    {
      repeats := [];
      people := [];
    }

    /** The constructor DNAFileParser(file): read the CSV, then parse it; an
        exception from either step means no parser is built. */
    static method Open(file: seq<string>) returns (r: Result<DNAFileParser, ParseError>)
      ensures CsvData(file).Failure? ==> r == Failure(CsvData(file).error)
      ensures CsvData(file).Success? ==>
        match ParseData(CsvData(file).value)
        case Failure(e) => r == Failure(e)
        case Success(parsed) => r.Success? && fresh(r.value) && r.value.repeats == parsed.0 && r.value.people == parsed.1
    {
      var data := ReadDataFromCSV(file);
      if data.Failure? {
        return Failure(data.error);
      }
      var parser := new DNAFileParser.Empty();
      var err := parser.ParseDNA(data.value);
      if err.Some? {
        return Failure(err.value);
      }
      r := Success(parser);
    }

    /** parseDNA: fill `repeats` from the header row, then `people` row by row. */
    method ParseDNA(data: seq<seq<string>>) returns (err: Option<ParseError>)
      modifies this
      ensures ParseData(data).Failure? ==> err == Some(ParseData(data).error)
      ensures ParseData(data).Success? ==> err.None? && repeats == ParseData(data).value.0 && people == ParseData(data).value.1
    {
      if |data| == 0 {
        return Some(NoData);
      }
      var headerRow := data[0];
      if |headerRow| == 0 {
        return Some(EmptyRow(0));
      }
      repeats := ParseHeader(headerRow);
      var persons := ParseRows(data);
      if persons.Failure? {
        return Some(persons.error);
      }
      people := persons.value;
      err := None;
    }

    /** The header loop of parseDNA: each cell after the first, upper-cased. */
    static method ParseHeader(headerRow: seq<string>) returns (repeats: seq<string>)
      requires |headerRow| > 0
      ensures repeats == Header(headerRow)
    {
      var headers := new string[|headerRow| - 1];
      for i := 1 to |headerRow|
        invariant forall k :: 0 <= k < i - 1 ==> headers[k] == ToUpper(headerRow[k + 1])
      {
        headers[i - 1] := ToUpper(headerRow[i]);
      }
      repeats := headers[..];
    }

    /** The row loop of parseDNA: one person per row after the header, stopping
        at the first row that raises an exception. */
    static method ParseRows(data: seq<seq<string>>) returns (r: Result<seq<Person>, ParseError>)
      requires |data| > 0
      ensures r == ParsePeople(data, |data|)
    {
      var persons: seq<Person> := [];
      for i := 1 to |data|
        invariant ParsePeople(data, i) == Success(persons)
      {
        var person := ParsePerson(data[i], i);
        if person.Failure? {
          FirstFailingRow(data, i);
          return Failure(person.error);
        }
        persons := persons + [person.value];
      }
      r := Success(persons);
    }

    /** One iteration of parseDNA's row loop: the name, then each count cell
        parsed in turn into `repeatData`. */
    static method ParsePerson(row: seq<string>, i: nat) returns (r: Result<Person, ParseError>)
      ensures r == ParseRow(row, i)
    {
      if |row| == 0 {
        return Failure(EmptyRow(i));
      }
      var personName := row[0];
      var repeatData := new int[|row| - 1];
      ghost var cells := row[1..];
      for j := 1 to |row|
        invariant forall t :: 0 <= t < j - 1 ==> ParseInt(cells[t]) == Some(repeatData[t])
      {
        var v := ParseInt(row[j]);
        if v.None? {
          assert ParseInt(cells[j - 1]).None?;
          return Failure(BadCount(i, j));
        }
        repeatData[j - 1] := v.value;
      }
      assert ParseCounts(cells).value == repeatData[..];
      r := Success(Person(personName, repeatData[..]));
    }
  }
}
