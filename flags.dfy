/** The flag-key pass over the map's geometry records (app.js:71-75). */
module Flags {
  import opened Wrappers
  import opened Text

  /** One record of `Highcharts.geojson(topology)`. The conversion itself is
      outside the model; `hcKey` is `properties['hc-key']`, which the script
      reads and never writes. */
  class GeoRecord {
    const hcKey: Option<string>
    var id: Option<string>
    var flag: Option<string>

    constructor (hcKey: Option<string>)
      ensures this.hcKey == hcKey && id == None && flag == None
    {
      this.hcKey := hcKey;
      id := None;
      flag := None;
    }
  }

  /** `id.replace('UK', 'GB').toLowerCase()`. */
  function FlagKey(id: string): string
  {
    Lower(ReplaceFirst(id, "UK", "GB"))
  }

  /** The flag key has the id's length and no upper-case letter, and an id
      without "UK" is only lower-cased. */
  lemma FlagKeyShape(id: string)
    ensures |FlagKey(id)| == |id|
    ensures forall i :: 0 <= i < |id| ==> !IsUpper(FlagKey(id)[i])
    ensures !Contains(id, "UK") ==> FlagKey(id) == Lower(id)
  {
    ReplaceFirstSpec(id, "UK", "GB");
    LowerSpec(ReplaceFirst(id, "UK", "GB"));
  }

  lemma LowerAppend(a: string, b: string)
    ensures Lower(a + b) == Lower(a) + Lower(b)
  {
  }

  /** At the first case-sensitive "UK" of the id the flag key reads "gb";
      the rest is the id lower-cased. */
  lemma FlagKeyAtFirstUk(id: string, i: nat)
    requires OccursAt(id, "UK", i)
    requires forall j: nat :: j < i ==> !OccursAt(id, "UK", j)
    ensures FlagKey(id) == Lower(id[..i]) + "gb" + Lower(id[i + 2..])
  {
    ReplaceFirstSpec(id, "UK", "GB");
    assert ReplaceFirst(id, "UK", "GB") == id[..i] + "GB" + id[i + 2..];
    LowerAppend(id[..i] + "GB", id[i + 2..]);
    LowerAppend(id[..i], "GB");
    assert Lower("GB") == "gb";
  }

  /** The United Kingdom's key gets the flag asset name "gb". */
  lemma FlagKeyOfUk()
    ensures FlagKey("UK") == "gb"
  {
    assert OccursAt("UK", "UK", 0);
    FlagKeyAtFirstUk("UK", 0);
    assert "UK"[..0] == "" && "UK"[2..] == "";
  }

  /** The record has been through the loop body. */
  ghost predicate Normalised(r: GeoRecord)
    reads r
  {
    r.hcKey.Some? && r.id == r.hcKey && r.flag == Some(FlagKey(r.hcKey.value))
  }

  /** The index of the first record without an `hc-key`, where the loop
      throws; `|mapData|` when there is none. */
  function FirstMissing(mapData: seq<GeoRecord>): (k: nat)
    ensures k <= |mapData|
    ensures forall j :: 0 <= j < k ==> mapData[j].hcKey.Some?
    ensures k < |mapData| ==> mapData[k].hcKey.None?
  {
    if |mapData| == 0 then 0
    else if mapData[0].hcKey.None? then 0
    else 1 + FirstMissing(mapData[1..])
  }

  /** The loop body for one record: `id` from the `hc-key`, then the flag
      key from `id`. Without an `hc-key` only `id` is written before the
      throw, and `ok` is false. */
  method NormaliseOne(country: GeoRecord) returns (ok: bool)
    modifies country
    ensures ok <==> country.hcKey.Some?
    ensures ok ==> Normalised(country)
    ensures !ok ==> country.id == None && country.flag == old(country.flag)
  {
    country.id := country.hcKey;
    if country.id.None? {
      return false;
    }
    country.flag := Some(FlagKey(country.id.value));
    ok := true;
  }

  /** `mapData.forEach(...)`: set each record's `id` to its `hc-key` and its
      `flag` to the derived key. A record without an `hc-key` gets an
      undefined `id`, and the `replace` call on it throws: `ok` is then false
      and the records after it are untouched. */
  method NormaliseFlags(mapData: seq<GeoRecord>) returns (ok: bool)
    modifies mapData
    ensures ok <==> FirstMissing(mapData) == |mapData|
    ensures forall j :: 0 <= j < FirstMissing(mapData) ==> Normalised(mapData[j])
    ensures !ok ==> mapData[FirstMissing(mapData)].id == None
    ensures !ok ==> mapData[FirstMissing(mapData)].flag == old(mapData[FirstMissing(mapData)].flag)
    ensures forall r :: r in mapData && r !in mapData[..FirstMissing(mapData)] && (ok || r != mapData[FirstMissing(mapData)]) ==>
      r.id == old(r.id) && r.flag == old(r.flag)
  {
    var k := FirstMissing(mapData);
    var i := 0;
    // The records before `k` all have an `hc-key`, so their bodies complete.
    while i < k
      invariant 0 <= i <= k
      invariant forall j :: 0 <= j < i ==> Normalised(mapData[j])
      invariant forall r :: r in mapData && r !in mapData[..i] ==> r.id == old(r.id) && r.flag == old(r.flag)
    {
      var done := NormaliseOne(mapData[i]);
      assert mapData[..i + 1] == mapData[..i] + [mapData[i]];
      i := i + 1;
    }
    if k == |mapData| {
      return true;
    }
    // The body throws on record `k`; nothing after it runs.
    ok := NormaliseOne(mapData[k]);
  }
}
