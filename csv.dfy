/** The CSV half of the pipeline (app.js:12-45): the line splitter
    `CSVtoArray`, the header that gives the year categories, and the row
    loop that fills the `countries` dictionary. */
module Csv {
  import opened Wrappers
  import opened Text
  import opened Cells

  /** The field separator `","` of the population export. */
  const FieldSep: string := "\",\""

  /** Number of leading metadata columns (name, code, two unused ones). */
  const MetaColumns: nat := 4

  /** `text.replace(/^"/, '')`: one leading quote, if there is one. */
  function StripLeadingQuote(text: string): string
  {
    if |text| > 0 && text[0] == '"' then text[1..] else text
  }

  /** `text.replace(/",$/, '')`: one `",` at the very end, if there is one. */
  function StripTrailingQuoteComma(text: string): string
  {
    if |text| >= 2 && text[|text| - 2..] == "\"," then text[..|text| - 2] else text
  }

  /** `CSVtoArray`: strip the outer quote and trailing quote-comma, then split
      on `","`. */
  function CsvToArray(text: string): (fields: seq<string>)
    ensures |fields| >= 1
  {
    Split(StripTrailingQuoteComma(StripLeadingQuote(text)), FieldSep)
  }

  predicate EndsInQuoteComma(text: string)
  {
    |text| >= 2 && text[|text| - 2] == '"' && text[|text| - 1] == ','
  }

  /** What `CSVtoArray` returns, stated without its definition: the text is
      the joined fields, wrapped in one leading quote exactly when the text
      starts with one and one trailing `",` exactly when what follows that
      quote ends in one, and no field holds the separator. */
  lemma CsvToArrayShape(text: string)
    ensures var body := Join(CsvToArray(text), FieldSep);
      var lead := if |text| > 0 && text[0] == '"' then "\"" else "";
      text == lead + body + (if EndsInQuoteComma(text[|lead|..]) then "\"," else "")
    ensures forall f :: f in CsvToArray(text) ==> !Contains(f, FieldSep)
  {
    var inner := StripLeadingQuote(text);
    JoinSplit(StripTrailingQuoteComma(inner), FieldSep);
    SplitPiecesFree(StripTrailingQuoteComma(inner), FieldSep);
    if |inner| >= 2 && inner[|inner| - 2..] == "\"," {
      assert inner == inner[..|inner| - 2] + "\",";
    }
    assert EndsInQuoteComma(inner) <==> |inner| >= 2 && inner[|inner| - 2..] == "\",";
    if |text| > 0 && text[0] == '"' {
      assert text == "\"" + text[1..];
      assert text[1..] == inner;
    } else {
      assert text[0..] == inner;
    }
  }

  /** Without the trailing `",` the closing quote of the last field stays:
      `"A","B"` splits into `A` and `B"`. */
  lemma CsvToArrayUnterminated()
    ensures CsvToArray("\"A\",\"B\"") == ["A", "B\""]
  {
    var t := "\"A\",\"B\"";
    assert StripLeadingQuote(t) == "A\",\"B\"";
    assert StripTrailingQuoteComma("A\",\"B\"") == "A\",\"B\"";
    assert "A\",\"B\"" == "A" + FieldSep + "B\"";
    FindAfterFree("A", FieldSep, "B\"");
    SplitAt("A\",\"B\"", FieldSep, 1);
    assert "A\",\"B\""[..1] == "A";
    assert "A\",\"B\""[4..] == "B\"";
    assert Find("B\"", FieldSep) == None by {
      assert !OccursAt("B\"", FieldSep, 0);
    }
  }

  /** A line written in the export's convention — each field quoted, fields
      separated by commas, a trailing comma — splits back into its fields,
      provided no field holds a quote. */
  lemma CsvLineRoundTrip(fields: seq<string>)
    requires |fields| >= 1
    requires forall f :: f in fields ==> '"' !in f
    ensures CsvToArray("\"" + Join(fields, FieldSep) + "\",") == fields
  {
    var body := Join(fields, FieldSep);
    var text := "\"" + body + "\",";
    assert text[0] == '"';
    assert StripLeadingQuote(text) == body + "\",";
    var inner := body + "\",";
    assert inner[|inner| - 2..] == "\",";
    assert inner[..|inner| - 2] == body;
    SplitJoin(fields, FieldSep);
  }

  /** `csv.split(/\n/)`. */
  function Lines(csv: string): (lines: seq<string>)
    ensures |lines| >= 1
  {
    Split(csv, "\n")
  }

  /** `row.slice(4)`: the cells after the metadata columns, none if the row is
      shorter. */
  function DataCells(row: seq<string>): (cells: seq<string>)
    ensures |cells| == if |row| >= MetaColumns then |row| - MetaColumns else 0
    ensures forall i :: 0 <= i < |cells| ==> cells[i] == row[MetaColumns + i]
  {
    if |row| >= MetaColumns then row[MetaColumns..] else []
  }

  /** `CSVtoArray(csvArr[2]).slice(4)`: the year labels of the header line. */
  function Categories(header: string): seq<string>
  {
    DataCells(CsvToArray(header))
  }

  /** The categories are the header's year columns, in column order. */
  lemma CategoriesOfHeader(meta: seq<string>, years: seq<string>)
    requires |meta| == MetaColumns
    requires forall f :: f in meta + years ==> '"' !in f
    ensures Categories("\"" + Join(meta + years, FieldSep) + "\",") == years
  {
    CsvLineRoundTrip(meta + years);
    assert (meta + years)[MetaColumns..] == years;
  }

  /** Every cell of a row classified, in place and in order. */
  function ClassifyAll(cells: seq<string>): seq<Cell>
  {
    if |cells| == 0 then [] else ClassifyAll(cells[..|cells| - 1]) + [Classify(cells[|cells| - 1])]
  }

  /** Classifying a row keeps its length and keeps cell `i` at position `i`. */
  lemma {:induction false} ClassifyAllAligned(cells: seq<string>)
    ensures |ClassifyAll(cells)| == |cells|
    ensures forall i :: 0 <= i < |cells| ==> ClassifyAll(cells)[i] == Classify(cells[i])
  {
    if |cells| > 0 {
      ClassifyAllAligned(cells[..|cells| - 1]);
    }
  }

  /** The value stored in `countries`; `code3` is `None` where JavaScript's
      `row[1]` is `undefined`. */
  datatype CountryRecord = CountryRecord(name: string, code3: Option<string>, data: seq<Cell>)

  /** `countries[row[1]]`: a missing `row[1]` is `undefined`, which a property
      key turns into the text "undefined". */
  function RowKey(row: seq<string>): string
    requires |row| >= 1
  {
    if |row| >= 2 then row[1] else "undefined"
  }

  function LineKey(line: string): string
  {
    RowKey(CsvToArray(line))
  }

  /** The record the row loop stores for one line. */
  function RowRecord(line: string): CountryRecord
  {
    var row := CsvToArray(line);
    CountryRecord(row[0], if |row| >= 2 then Some(row[1]) else None, ClassifyAll(DataCells(row)))
  }

  /** `data.forEach(...)`: the data cells, copied into an array, are
      classified where they stand; cell `i` stays at position `i`. */
  method ClassifyCells(cells: seq<string>) returns (parsed: seq<Cell>)
    ensures parsed == ClassifyAll(cells)
    ensures |parsed| == |cells|
    ensures forall i :: 0 <= i < |cells| ==> parsed[i] == Classify(cells[i])
  {
    var data := new Cell[|cells|](i requires 0 <= i < |cells| => Str(cells[i]));
    var i := 0;
    while i < data.Length
      invariant 0 <= i <= data.Length
      invariant forall j :: 0 <= j < i ==> data[j] == Classify(cells[j])
      invariant forall j :: i <= j < data.Length ==> data[j] == Str(cells[j])
    {
      data[i] := Classify(data[i].s);
      i := i + 1;
    }
    ClassifyAllAligned(cells);
    parsed := data[..];
  }

  /** One iteration of the row loop: split the line, classify its data cells
      and build the record stored under field 1. */
  method ParseRow(line: string) returns (key: string, rec: CountryRecord)
    ensures key == LineKey(line) && rec == RowRecord(line)
    ensures var row := CsvToArray(line);
      && rec.name == row[0]
      && |rec.data| == |DataCells(row)|
      && forall i :: 0 <= i < |rec.data| ==> rec.data[i] == Classify(row[MetaColumns + i])
  {
    var row := CsvToArray(line);
    var data := ClassifyCells(DataCells(row));
    key := RowKey(row);
    rec := CountryRecord(row[0], if |row| >= 2 then Some(row[1]) else None, data);
  }

  /** The `countries` dictionary as a value: its entries, and its keys in the
      order JavaScript enumerates them (first insertion). */
  datatype Table = Table(records: map<string, CountryRecord>, order: seq<string>)

  ghost predicate WellFormed(t: Table)
  {
    && (forall k :: k in t.records <==> k in t.order)
    && (forall i, j :: 0 <= i < j < |t.order| ==> t.order[i] != t.order[j])
  }

  /** `countries[key] = rec`: a new key goes to the end of the order, an
      existing one keeps its place and gets the new record. */
  function Insert(t: Table, key: string, rec: CountryRecord): Table
  {
    Table(t.records[key := rec], if key in t.records then t.order else t.order + [key])
  }

  /** Insertion keeps the dictionary well formed, stores the record under the
      key, leaves every other key alone and never reorders keys. */
  lemma InsertSpec(t: Table, key: string, rec: CountryRecord)
    requires WellFormed(t)
    ensures WellFormed(Insert(t, key, rec))
    ensures key in Insert(t, key, rec).records && Insert(t, key, rec).records[key] == rec
    ensures forall k :: k != key ==>
      (k in Insert(t, key, rec).records <==> k in t.records)
      && (k in t.records ==> Insert(t, key, rec).records[k] == t.records[k])
    ensures t.order <= Insert(t, key, rec).order
  {
  }

  /** The dictionary after the row loop has run over `lines`. */
  function TableOf(lines: seq<string>): Table
  {
    if |lines| == 0 then Table(map[], [])
    else
      var last := lines[|lines| - 1];
      Insert(TableOf(lines[..|lines| - 1]), LineKey(last), RowRecord(last))
  }

  lemma {:induction false} TableOfWellFormed(lines: seq<string>)
    ensures WellFormed(TableOf(lines))
  {
    if |lines| > 0 {
      TableOfWellFormed(lines[..|lines| - 1]);
      var last := lines[|lines| - 1];
      InsertSpec(TableOf(lines[..|lines| - 1]), LineKey(last), RowRecord(last));
    }
  }

  /** The keys of the dictionary are exactly the keys of the lines. */
  lemma {:induction false} TableOfKeys(lines: seq<string>, k: string)
    ensures k in TableOf(lines).records <==> exists j :: 0 <= j < |lines| && LineKey(lines[j]) == k
  {
    if |lines| > 0 {
      var init := lines[..|lines| - 1];
      TableOfKeys(init, k);
      if exists j :: 0 <= j < |init| && LineKey(init[j]) == k {
        var j :| 0 <= j < |init| && LineKey(init[j]) == k;
        assert lines[j] == init[j];
      }
      if exists j :: 0 <= j < |lines| && LineKey(lines[j]) == k {
        var j :| 0 <= j < |lines| && LineKey(lines[j]) == k;
        if j < |lines| - 1 {
          assert init[j] == lines[j];
        }
      }
    }
  }

  /** The last line with a given key wins: a later row with the same code
      replaces the earlier one. */
  lemma {:induction false} TableOfLastWins(lines: seq<string>, j: nat)
    requires j < |lines|
    requires forall j' :: j < j' < |lines| ==> LineKey(lines[j']) != LineKey(lines[j])
    ensures LineKey(lines[j]) in TableOf(lines).records
    ensures TableOf(lines).records[LineKey(lines[j])] == RowRecord(lines[j])
  {
    var init := lines[..|lines| - 1];
    if j < |lines| - 1 {
      forall j' | j < j' < |init|
        ensures LineKey(init[j']) != LineKey(init[j])
      {
        assert init[j'] == lines[j'];
      }
      TableOfLastWins(init, j);
      assert init[j] == lines[j];
    }
  }

  /** Rows processed later never move the keys of earlier rows: the key order
      after a prefix of the lines is a prefix of the final key order. */
  lemma {:induction false} TableOfOrderGrows(lines: seq<string>, n: nat)
    requires n <= |lines|
    ensures TableOf(lines[..n]).order <= TableOf(lines).order
    decreases |lines| - n
  {
    if n < |lines| {
      var m := n + 1;
      TableOfOrderGrows(lines, m);
      assert lines[..m][..n] == lines[..n];
      var last := lines[..m][n];
      assert TableOf(lines[..m]) == Insert(TableOf(lines[..n]), LineKey(last), RowRecord(last));
    } else {
      assert lines[..n] == lines;
    }
  }

  /** One more line processed is one more insertion. */
  lemma TableOfStep(lines: seq<string>, i: nat)
    requires i < |lines|
    ensures TableOf(lines[..i + 1]) == Insert(TableOf(lines[..i]), LineKey(lines[i]), RowRecord(lines[i]))
  {
    assert lines[..i + 1][..i] == lines[..i];
    assert lines[..i + 1][i] == lines[i];
  }

  /** The `countries` object: a dictionary the row loop writes into. */
  class CountryTable {
    var records: map<string, CountryRecord>
    var order: seq<string>

    ghost predicate Valid()
      reads this
    {
      WellFormed(Table(records, order))
    }

    function Snapshot(): Table
      reads this
    {
      Table(records, order)
    }

    /** `countries = {}`. */
    constructor ()
      ensures Valid() && Snapshot() == Table(map[], [])
    {
      records := map[];
      order := [];
    }

    /** `countries[key] = rec`. */
    method Put(key: string, rec: CountryRecord)
      requires Valid()
      modifies this
      ensures Valid()
      ensures Snapshot() == Insert(old(Snapshot()), key, rec)
    {
      InsertSpec(Snapshot(), key, rec);
      if key !in records {
        order := order + [key];
      }
      records := records[key := rec];
    }
  }

  /** The CSV half of the script: split the text into lines, take the
      categories from line 2 and store every line from 3 on. With fewer than
      three lines `csvArr[2]` is `undefined` and `CSVtoArray` throws; `ok` is
      then false and nothing was stored. */
  method ParseCsv(csv: string) returns (ok: bool, categories: seq<string>, countries: CountryTable)
    ensures fresh(countries) && countries.Valid()
    ensures ok <==> |Lines(csv)| >= 3
    ensures ok ==> categories == Categories(Lines(csv)[2])
    ensures ok ==> countries.Snapshot() == TableOf(Lines(csv)[3..])
    ensures !ok ==> categories == [] && countries.Snapshot() == Table(map[], [])
  {
    var csvArr := Lines(csv);
    countries := new CountryTable();
    if |csvArr| < 3 {
      return false, [], countries;
    }
    ok := true;
    categories := Categories(csvArr[2]);
    var rows := csvArr[3..];
    var i := 0;
    while i < |rows|
      invariant 0 <= i <= |rows|
      invariant countries.Valid()
      invariant countries.Snapshot() == TableOf(rows[..i])
    {
      var key, rec := ParseRow(rows[i]);
      countries.Put(key, rec);
      TableOfStep(rows, i);
      i := i + 1;
    }
    assert rows[..i] == rows;
  }
}
