/** The current-population half of the pipeline (app.js:46-69): for every
    country, the latest entry of its series whose `typeof` is `'number'`,
    with the year label at the same position. */
module Latest {
  import opened Wrappers
  import opened Cells
  import opened Csv

  /** The highest index holding a number, if any. */
  function LatestIndex(s: seq<Cell>): (r: Option<nat>)
    ensures r.Some? ==> r.value < |s| && IsNumber(s[r.value])
  {
    if |s| == 0 then None
    else if IsNumber(s[|s| - 1]) then Some(|s| - 1)
    else LatestIndex(s[..|s| - 1])
  }

  /** `LatestIndex` is the last numeric position: it holds a number and
      nothing after it does; and there is none exactly when no entry is a
      number. */
  lemma {:induction false} LatestIndexSpec(s: seq<Cell>)
    ensures LatestIndex(s).Some? ==>
      forall j :: LatestIndex(s).value < j < |s| ==> !IsNumber(s[j])
    ensures LatestIndex(s).None? <==> forall j :: 0 <= j < |s| ==> !IsNumber(s[j])
  {
    if |s| > 0 && !IsNumber(s[|s| - 1]) {
      var init := s[..|s| - 1];
      LatestIndexSpec(init);
      assert forall j :: 0 <= j < |init| ==> init[j] == s[j];
    }
  }

  /** `categories[i]`, which is `undefined` past the end of the header. */
  function CategoryAt(categories: seq<string>, i: nat): Option<string>
  {
    if i < |categories| then Some(categories[i]) else None
  }

  /** The `value` and `year` the scan settles on for one series. */
  datatype Reading = Reading(value: Cell, year: Option<string>)

  function LatestReading(s: seq<Cell>, categories: seq<string>): Reading
  {
    match LatestIndex(s)
    case None => Reading(Null, None)
    case Some(k) => Reading(s[k], CategoryAt(categories, k))
  }

  /** The reading's value is null exactly when no entry is a number; otherwise
      it is the entry at the last numeric position, paired with that
      position's year. Null and string entries are skipped. */
  lemma LatestReadingSpec(s: seq<Cell>, categories: seq<string>)
    ensures LatestReading(s, categories).value == Null <==> forall j :: 0 <= j < |s| ==> !IsNumber(s[j])
    ensures LatestReading(s, categories).value == Null ==> LatestReading(s, categories).year == None
    ensures forall k :: 0 <= k < |s| && IsNumber(s[k]) && (forall j :: k < j < |s| ==> !IsNumber(s[j])) ==>
      LatestReading(s, categories) == Reading(s[k], CategoryAt(categories, k))
  {
    LatestIndexSpec(s);
    forall k | 0 <= k < |s| && IsNumber(s[k]) && (forall j :: k < j < |s| ==> !IsNumber(s[j]))
      ensures LatestIndex(s) == Some(k)
    {
      assert !(k < LatestIndex(s).value);
    }
  }

  /** The `while (i--)` loop: walk the series backwards and stop at the first
      entry whose `typeof` is `'number'`. */
  method ScanLatest(itemData: seq<Cell>, categories: seq<string>) returns (value: Cell, year: Option<string>)
    ensures Reading(value, year) == LatestReading(itemData, categories)
    ensures value == Null || IsNumber(value)
  {
    LatestReadingSpec(itemData, categories);
    value, year := Null, None;
    var i := |itemData|;
    while i != 0
      invariant 0 <= i <= |itemData|
      invariant forall j :: i <= j < |itemData| ==> !IsNumber(itemData[j])
      invariant value == Null && year == None
    {
      i := i - 1;
      if IsNumber(itemData[i]) {
        value := itemData[i];
        year := CategoryAt(categories, i);
        break;
      }
    }
  }

  /** One entry of the map's `data` list. */
  datatype CurrentValue = CurrentValue(name: string, code3: string, value: Cell, year: Option<string>)

  function EntryFor(code3: string, rec: CountryRecord, categories: seq<string>): CurrentValue
  {
    var r := LatestReading(rec.data, categories);
    CurrentValue(rec.name, code3, r.value, r.year)
  }

  /** The `for (const code3 in countries)` loop: one entry per key, in key
      order, carrying the country's name and key unchanged. */
  method CurrentValues(countries: CountryTable, categories: seq<string>) returns (data: seq<CurrentValue>)
    requires countries.Valid()
    ensures |data| == |countries.order|
    ensures forall j :: 0 <= j < |data| ==>
      && data[j].name == countries.records[countries.order[j]].name
      && data[j].code3 == countries.order[j]
      && Reading(data[j].value, data[j].year) == LatestReading(countries.records[countries.order[j]].data, categories)
  {
    data := [];
    var n := 0;
    while n < |countries.order|
      invariant 0 <= n <= |countries.order|
      invariant |data| == n
      invariant forall j :: 0 <= j < n ==> data[j] == EntryFor(countries.order[j], countries.records[countries.order[j]], categories)
    {
      var code3 := countries.order[n];
      var itemData := countries.records[code3].data;
      var value, year := ScanLatest(itemData, categories);
      data := data + [CurrentValue(countries.records[code3].name, code3, value, year)];
      n := n + 1;
    }
  }

  /** The series `[1000, null, 1500, null]` over 1960-1963 reads 1500 in
      1962: trailing nulls are skipped, the last column is not taken blindly. */
  lemma LatestExample()
    ensures LatestReading([Num(1000), Null, Num(1500), Null], ["1960", "1961", "1962", "1963"])
      == Reading(Num(1500), Some("1962"))
    ensures LatestReading([Null, Null], ["1960", "1961"]) == Reading(Null, None)
  {
    var s := [Num(1000), Null, Num(1500), Null];
    assert s[..3] == [Num(1000), Null, Num(1500)];
    LatestReadingSpec([Null, Null], ["1960", "1961"]);
  }
}
