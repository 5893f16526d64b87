/** The start-up sequence of the script once both downloads have arrived
    (app.js:12-75): parse the CSV, derive the current values, then give the
    geometry records their ids and flag keys. */
module Dashboard {
  import opened Wrappers
  import opened Csv
  import opened Latest
  import opened Flags

  /** A throw at any step ends the sequence: when the CSV has fewer than
      three lines, no current values are built and the geometry records are
      not touched. */
  method Load(csv: string, mapData: seq<GeoRecord>)
    returns (parsed: bool, categories: seq<string>, countries: CountryTable, data: seq<CurrentValue>, flagged: bool)
    modifies mapData
    ensures fresh(countries) && countries.Valid()
    ensures parsed <==> |Lines(csv)| >= 3
    ensures parsed ==> categories == Categories(Lines(csv)[2]) && countries.Snapshot() == TableOf(Lines(csv)[3..])
    ensures parsed ==> |data| == |countries.order|
    ensures parsed ==> forall j :: 0 <= j < |data| ==>
      data[j] == EntryFor(countries.order[j], countries.records[countries.order[j]], categories)
    ensures parsed ==> (flagged <==> FirstMissing(mapData) == |mapData|)
    ensures parsed ==> forall j :: 0 <= j < FirstMissing(mapData) ==> Normalised(mapData[j])
    ensures parsed && !flagged ==> mapData[FirstMissing(mapData)].id == None
    ensures parsed && !flagged ==>
      mapData[FirstMissing(mapData)].flag == old(mapData[FirstMissing(mapData)].flag)
    ensures parsed ==> forall r ::
      r in mapData && r !in mapData[..FirstMissing(mapData)] && (flagged || r != mapData[FirstMissing(mapData)]) ==>
        r.id == old(r.id) && r.flag == old(r.flag)
    ensures !parsed ==> data == [] && !flagged
    ensures !parsed ==> forall r :: r in mapData ==> r.id == old(r.id) && r.flag == old(r.flag)
  {
    parsed, categories, countries := ParseCsv(csv);
    data, flagged := [], false;
    if !parsed {
      return;
    }
    data := CurrentValues(countries, categories);
    flagged := NormaliseFlags(mapData);
  }
}
