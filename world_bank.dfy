/**
 * parseWorldBankCSV of the Nigeria economic timeline (app.js): reads a World
 * Bank indicator download. Lines 0-3 are metadata, line 4 is the header, and
 * every later line that is not blank and has at least five fields is one
 * country: its name, its code and one value per year column.
 *
 * Cell values stay abstract: the caller's `parseFloat` gives Some(v) for a
 * cell JavaScript's parseFloat reads as a number and None for one it reads as
 * NaN (which the source stores as null).
 */
module WorldBank {
  import opened Wrappers
  import opened JsText
  import opened CsvLine

  const HeaderLine := 4
  const FirstDataLine := 5
  const MinFields := 5
  const FirstYear := 1960
  const LastYear := 2024

  datatype CountryRecord<V> = CountryRecord(countryName: string, countryCode: string, values: map<int, Option<V>>)

  datatype Table<V> = Table(headers: seq<string>, data: seq<CountryRecord<V>>)

  /** The year a header names: its parseInt, when that lies in 1960..2024. */
  function YearOf(header: string): Option<int>
  {
    match ParseInt(header)
    case Some(y) => if FirstYear <= y <= LastYear then Some(y) else None
    case None => None
  }

  /** The year each header names, column by column. */
  function HeaderYears(headers: seq<string>): (years: seq<Option<int>>)
    ensures |years| == |headers|
  {
    seq(|headers|, i requires 0 <= i < |headers| => YearOf(headers[i]))
  }

  /** The year-to-column map built from the first `n` columns; a later column
      for the same year replaces an earlier one. */
  function LastColumns(years: seq<Option<int>>, n: nat): map<int, nat>
    requires n <= |years|
  {
    if n == 0 then map[]
    else
      var m := LastColumns(years, n - 1);
      match years[n - 1]
      case Some(y) => m[y := n - 1]
      case None => m
  }

  /** The yearIndices map parseWorldBankCSV builds from the header fields. */
  function YearColumns(headers: seq<string>): map<int, nat>
  {
    LastColumns(HeaderYears(headers), |headers|)
  }

  /** The keys are exactly the years some column names, and each maps to the
      last column that names it. */
  lemma {:induction false} LastColumnsSpec(years: seq<Option<int>>, n: nat)
    requires n <= |years|
    ensures forall y :: y in LastColumns(years, n) <==> exists i :: 0 <= i < n && years[i] == Some(y)
    ensures forall y :: y in LastColumns(years, n) ==>
      var c := LastColumns(years, n)[y];
      c < n && years[c] == Some(y) && forall j :: c < j < n ==> years[j] != Some(y)
    decreases n
  {
    if n > 0 {
      LastColumnsSpec(years, n - 1);
      var m := LastColumns(years, n - 1);
      forall y | exists i :: 0 <= i < n && years[i] == Some(y)
        ensures y in LastColumns(years, n)
      {
        var i :| 0 <= i < n && years[i] == Some(y);
        if i < n - 1 {
          assert y in m;
        }
      }
    }
  }

  /** Year keys are exactly the header columns whose parseInt lies in
      1960..2024, each mapped to the last such column. */
  lemma YearColumnsSpec(headers: seq<string>)
    ensures forall y :: y in YearColumns(headers) <==>
      exists i :: 0 <= i < |headers| && YearOf(headers[i]) == Some(y)
    ensures forall y :: y in YearColumns(headers) ==>
      var c := YearColumns(headers)[y];
      && c < |headers| && YearOf(headers[c]) == Some(y)
      && forall j :: c < j < |headers| ==> YearOf(headers[j]) != Some(y)
  {
    var years := HeaderYears(headers);
    LastColumnsSpec(years, |headers|);
    assert forall i :: 0 <= i < |headers| ==> years[i] == YearOf(headers[i]);
  }

  /** Every year key lies in 1960..2024. */
  lemma YearColumnsRange(headers: seq<string>)
    ensures forall y :: y in YearColumns(headers) ==> FirstYear <= y <= LastYear
  {
    YearColumnsSpec(headers);
    forall y | y in YearColumns(headers)
      ensures FirstYear <= y <= LastYear
    {
      var i :| 0 <= i < |headers| && YearOf(headers[i]) == Some(y);
    }
  }

  /** A year header "1960" .. "2024" is read as its year. */
  lemma YearHeader(y: nat)
    requires FirstYear <= y <= LastYear
    ensures YearOf(DecimalString(y)) == Some(y)
  {
    ParseIntDecimal(y);
  }

  // ---------------------------------------------------------------------
  // Rows

  /** The value a row holds in column `index`: a column past the end of the row
      is `undefined`, which parseFloat reads as NaN. */
  function CellValue<V>(values: seq<string>, index: nat, parseFloat: string -> Option<V>): Option<V>
  {
    if index < |values| then parseFloat(values[index]) else None
  }

  /** The year data of a row: one entry per year column. */
  function YearData<V>(values: seq<string>, yearIndices: map<int, nat>, parseFloat: string -> Option<V>): map<int, Option<V>>
  {
    map y | y in yearIndices :: CellValue(values, yearIndices[y], parseFloat)
  }

  /** A line is a data row when it is not blank after trimming and has at least five fields. */
  predicate IsDataRow(line: string)
  {
    var t := Trim(line);
    t != [] && |Fields(t)| >= MinFields
  }

  function RecordOf<V>(line: string, yearIndices: map<int, nat>, parseFloat: string -> Option<V>): CountryRecord<V>
    requires IsDataRow(line)
  {
    var f := Fields(Trim(line));
    CountryRecord(f[0], f[1], YearData(f, yearIndices, parseFloat))
  }

  /** The records of the data rows among lines 5 .. n-1, in line order. */
  function RowsFrom<V>(lines: seq<string>, n: nat, yearIndices: map<int, nat>, parseFloat: string -> Option<V>): seq<CountryRecord<V>>
    requires n <= |lines|
  {
    if n <= FirstDataLine then []
    else if IsDataRow(lines[n - 1]) then
      RowsFrom(lines, n - 1, yearIndices, parseFloat) + [RecordOf(lines[n - 1], yearIndices, parseFloat)]
    else RowsFrom(lines, n - 1, yearIndices, parseFloat)
  }

  /** One more line: it adds its record when it is a data row. */
  lemma RowsFromStep<V>(lines: seq<string>, n: nat, yearIndices: map<int, nat>, parseFloat: string -> Option<V>)
    requires FirstDataLine <= n < |lines|
    ensures IsDataRow(lines[n]) ==>
              RowsFrom(lines, n + 1, yearIndices, parseFloat)
              == RowsFrom(lines, n, yearIndices, parseFloat) + [RecordOf(lines[n], yearIndices, parseFloat)]
    ensures !IsDataRow(lines[n]) ==>
              RowsFrom(lines, n + 1, yearIndices, parseFloat) == RowsFrom(lines, n, yearIndices, parseFloat)
  {
  }

  /** The record the reader builds from a line's trimmed fields is RecordOf. */
  lemma RecordFromFields<V>(line: string, values: seq<string>, yearIndices: map<int, nat>, parseFloat: string -> Option<V>)
    requires Trim(line) != [] && values == Fields(Trim(line)) && |values| >= MinFields
    ensures IsDataRow(line)
    ensures RecordOf(line, yearIndices, parseFloat) == CountryRecord(values[0], values[1], YearData(values, yearIndices, parseFloat))
  {
  }

  /** Which lines are data rows. */
  function RowFlags(lines: seq<string>): (flags: seq<bool>)
    ensures |flags| == |lines|
  {
    seq(|lines|, i requires 0 <= i < |lines| => IsDataRow(lines[i]))
  }

  /** The positions `lo <= j < n` where `flags` holds, in order. */
  function Selected(flags: seq<bool>, lo: nat, n: nat): (r: seq<nat>)
    requires n <= |flags|
    ensures forall k :: 0 <= k < |r| ==> lo <= r[k] < n && flags[r[k]]
  {
    if n <= lo then []
    else Selected(flags, lo, n - 1) + (if flags[n - 1] then [n - 1] else [])
  }

  /** The selected positions are strictly increasing, and every position from
      `lo` on where `flags` holds is among them. */
  lemma {:induction false} SelectedSpec(flags: seq<bool>, lo: nat, n: nat)
    requires n <= |flags|
    ensures forall k, l :: 0 <= k < l < |Selected(flags, lo, n)| ==>
      Selected(flags, lo, n)[k] < Selected(flags, lo, n)[l]
    ensures forall j :: lo <= j < n && flags[j] ==> j in Selected(flags, lo, n)
    decreases n
  {
    if n > lo {
      SelectedSpec(flags, lo, n - 1);
    }
  }


  /** The indices of the data rows from line 5 on, in order. */
  function DataRows(lines: seq<string>): (rows: seq<nat>)
    ensures forall k :: 0 <= k < |rows| ==> FirstDataLine <= rows[k] < |lines| && IsDataRow(lines[rows[k]])
  {
    Selected(RowFlags(lines), FirstDataLine, |lines|)
  }

  /** What parseWorldBankCSV returns for `text`. */
  function WorldBankTable<V>(text: string, parseFloat: string -> Option<V>): Table<V>
  {
    var lines := Split(text, '\n');
    if |lines| <= HeaderLine || lines[HeaderLine] == [] then Table([], [])
    else
      var headers := Fields(lines[HeaderLine]);
      var yearIndices := YearColumns(headers);
      Table(headers, RowsFrom(lines, |lines|, yearIndices, parseFloat))
  }

  // ---------------------------------------------------------------------
  // The reader as written

  /** headers.forEach: record the column of every year header. */
  method YearIndices(headers: seq<string>) returns (yearIndices: map<int, nat>)
    ensures yearIndices == YearColumns(headers)
  {
    yearIndices := map[];
    var index := 0;
    while index < |headers|
      invariant index <= |headers|
      invariant yearIndices == LastColumns(HeaderYears(headers), index)
    {
      var year := ParseInt(headers[index]);
      if year.Some? && FirstYear <= year.value && year.value <= LastYear {
        yearIndices := yearIndices[year.value := index];
      }
      index := index + 1;
    }
  }

  /** for (const [year, index] of Object.entries(yearIndices)): one cell per
      year column. Object.entries lists integer keys in ascending order, and
      every key lies in 1960..2024, so the loop walks that range and visits
      each key once, in the same order. */
  method BuildYearData<V>(values: seq<string>, yearIndices: map<int, nat>, parseFloat: string -> Option<V>)
    returns (yearData: map<int, Option<V>>)
    requires forall y :: y in yearIndices ==> FirstYear <= y <= LastYear
    ensures yearData == YearData(values, yearIndices, parseFloat)
  {
    yearData := map[];
    var year := FirstYear;
    while year <= LastYear
      invariant FirstYear <= year <= LastYear + 1
      invariant yearData == map y | y in yearIndices && y < year :: CellValue(values, yearIndices[y], parseFloat)
    {
      if year in yearIndices {
        var index := yearIndices[year];
        var value := if index < |values| then parseFloat(values[index]) else None;
        yearData := yearData[year := value];
      }
      year := year + 1;
    }
  }

  /** The body of the row loop: the record of a data row, None for a blank
      or short line. */
  method ReadRow<V>(rawLine: string, yearIndices: map<int, nat>, parseFloat: string -> Option<V>)
    returns (row: Option<CountryRecord<V>>)
    requires forall y :: y in yearIndices ==> FirstYear <= y <= LastYear
    ensures row.Some? <==> IsDataRow(rawLine)
    ensures row.Some? ==> row.value == RecordOf(rawLine, yearIndices, parseFloat)
  {
    var line := Trim(rawLine);
    if line != [] {
      var values := ParseCSVLine(line);
      if |values| >= MinFields {
        var yearData := BuildYearData(values, yearIndices, parseFloat);
        RecordFromFields(rawLine, values, yearIndices, parseFloat);
        return Some(CountryRecord(values[0], values[1], yearData));
      }
    }
    return None;
  }

  /** for (let i = 5; i < lines.length; i++): the records of the data rows. */
  method ReadRows<V>(lines: seq<string>, yearIndices: map<int, nat>, parseFloat: string -> Option<V>)
    returns (data: seq<CountryRecord<V>>)
    requires forall y :: y in yearIndices ==> FirstYear <= y <= LastYear
    ensures data == RowsFrom(lines, |lines|, yearIndices, parseFloat)
  {
    data := [];
    var i := FirstDataLine;
    if |lines| <= i {
      return;
    }
    while i < |lines|
      invariant FirstDataLine <= i <= |lines|
      invariant data == RowsFrom(lines, i, yearIndices, parseFloat)
    {
      RowsFromStep(lines, i, yearIndices, parseFloat);
      var row := ReadRow(lines[i], yearIndices, parseFloat);
      if row.Some? {
        data := data + [row.value];
      }
      i := i + 1;
    }
  }

  method ParseWorldBankCSV<V>(text: string, parseFloat: string -> Option<V>) returns (r: Table<V>)
    ensures r == WorldBankTable(text, parseFloat)
  {
    var lines := Split(text, '\n');
    if |lines| <= HeaderLine || lines[HeaderLine] == [] {
      return Table([], []);
    }
    var headers := ParseCSVLine(lines[HeaderLine]);
    var yearIndices := YearIndices(headers);
    YearColumnsRange(headers);
    var data := ReadRows(lines, yearIndices, parseFloat);
    r := Table(headers, data);
  }

  // ---------------------------------------------------------------------
  // What the table holds

  /** The rows are the records of the data rows, in line order. */
  lemma {:induction false} RowsFromSelected<V>(lines: seq<string>, n: nat, yearIndices: map<int, nat>, parseFloat: string -> Option<V>)
    requires n <= |lines|
    ensures |RowsFrom(lines, n, yearIndices, parseFloat)| == |Selected(RowFlags(lines), FirstDataLine, n)|
    ensures forall k :: 0 <= k < |RowsFrom(lines, n, yearIndices, parseFloat)| ==>
      var j := Selected(RowFlags(lines), FirstDataLine, n)[k];
      IsDataRow(lines[j]) && RowsFrom(lines, n, yearIndices, parseFloat)[k] == RecordOf(lines[j], yearIndices, parseFloat)
    decreases n
  {
    if n > FirstDataLine {
      RowsFromSelected(lines, n - 1, yearIndices, parseFloat);
      var flags := RowFlags(lines);
      assert flags[n - 1] == IsDataRow(lines[n - 1]);
    }
  }

  /** A record: its name and code are the first two fields, trimmed and free
      of quotes, and its year keys are exactly the year columns. */
  lemma RecordShape<V>(line: string, yearIndices: map<int, nat>, parseFloat: string -> Option<V>)
    requires IsDataRow(line)
    ensures var r := RecordOf(line, yearIndices, parseFloat);
      && IsTrimmed(r.countryName) && '"' !in r.countryName
      && IsTrimmed(r.countryCode) && '"' !in r.countryCode
      && r.values.Keys == yearIndices.Keys
      && forall y :: y in r.values ==>
           (r.values[y].Some? <==> yearIndices[y] < |Fields(Trim(line))| && parseFloat(Fields(Trim(line))[yearIndices[y]]).Some?)
  {
    var t := Trim(line);
    FieldsOfLine(t);
  }

  /** Without a header line (fewer than five lines, or an empty line 4) the
      table has no headers and no data. */
  lemma EmptyTable<V>(text: string, parseFloat: string -> Option<V>)
    requires var lines := Split(text, '\n'); |lines| <= HeaderLine || lines[HeaderLine] == []
    ensures WorldBankTable(text, parseFloat).headers == []
    ensures WorldBankTable(text, parseFloat).data == []
  {
  }

  /** With a header line the headers are the fields of line 4, and the records
      are exactly the data rows from line 5 on, in line order, each read
      against the year columns of those headers. */
  lemma TableRecords<V>(text: string, parseFloat: string -> Option<V>)
    requires var lines := Split(text, '\n'); |lines| > HeaderLine && lines[HeaderLine] != []
    ensures var lines := Split(text, '\n');
      var t := WorldBankTable(text, parseFloat);
      && t.headers == Fields(lines[HeaderLine])
      && |t.data| == |DataRows(lines)|
      && (forall k :: 0 <= k < |t.data| ==>
            IsDataRow(lines[DataRows(lines)[k]])
            && t.data[k] == RecordOf(lines[DataRows(lines)[k]], YearColumns(t.headers), parseFloat))
      && (forall k, l :: 0 <= k < l < |t.data| ==> DataRows(lines)[k] < DataRows(lines)[l])
      && (forall j :: FirstDataLine <= j < |lines| && IsDataRow(lines[j]) ==> j in DataRows(lines))
  {
    var lines := Split(text, '\n');
    var headers := Fields(lines[HeaderLine]);
    RowsFromSelected(lines, |lines|, YearColumns(headers), parseFloat);
    var flags := RowFlags(lines);
    SelectedSpec(flags, FirstDataLine, |lines|);
    forall j | FirstDataLine <= j < |lines| && IsDataRow(lines[j])
      ensures j in DataRows(lines)
    {
      assert flags[j];
    }
  }
}
