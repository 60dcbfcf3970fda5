/** Loading Argentina's provinces and localities from the GeoNames dumps: each line of
    `admin1CodesASCII.txt` whose first field starts with "AR." becomes a province, each
    line of `AR.txt` whose admin1 code names a loaded province becomes a locality.
    Row ids are positions in the tables; a load that fails leaves the tables as they
    were, as the uncommitted session does. */
module Geonames {
  import opened Wrappers
  import opened Text

  datatype CountryRow = CountryRow(name: string, code: string)
  datatype ProvinceRow = ProvinceRow(name: string, countryId: nat)
  /** Coordinates keep their field text: parsing it as a float is not modelled. */
  datatype LocalityRow = LocalityRow(name: string, provinceId: nat, latitude: Option<string>, longitude: Option<string>)

  /** `line.strip().split('\t')`. */
  function Fields(line: string): (parts: seq<string>)
    ensures |parts| >= 1
  {
    Split(Strip(line), '\t')
  }

  /** `strip()` removes trailing tabs too, so the last field of a non-blank line is never
      empty: trailing empty fields are not counted. */
  lemma TrailingEmptyFieldsDropped(line: string)
    ensures Strip(line) != [] ==> Fields(line)[|Fields(line)| - 1] != []
  {
    var s := Strip(line);
    if s != [] {
      assert IsSpace('\t');
      SplitLastNonEmpty(s, '\t');
    }
  }

  /** `field.split('.')[1]` for a field starting with "AR.": the text after the first
      dot, up to the next dot. */
  function ProvinceCode(field: string): (code: string)
    requires StartsWith(field, "AR.")
    ensures code == Split(field[3..], '.')[0]
    ensures '.' !in code && StartsWith(field[3..], code)
  {
    assert field == "AR" + ['.'] + field[3..];
    SplitAfter("AR", '.', field[3..]);
    SplitFirstIsPrefix(field[3..], '.');
    Split(field, '.')[1]
  }

  /** The result of one admin1 line: `None` when it is not an Argentine province, the
      (code, name) pair when it is, an error when the name field is missing. */
  function ProvinceEntry(line: string): Result<Option<(string, string)>, string> {
    var parts := Fields(line);
    if !StartsWith(parts[0], "AR.") then Ok(None)
    else if |parts| < 2 then Err("list index out of range")
    else Ok(Some((ProvinceCode(parts[0]), parts[1])))
  }

  /** The province entries of the admin1 lines in file order, or the position of the
      first line whose name field is missing. */
  function ProvinceEntries(lines: seq<string>): Result<seq<(string, string)>, nat> {
    if lines == [] then Ok([])
    else
      match ProvinceEntries(lines[..|lines| - 1])
      case Err(i) => Err(i)
      case Ok(entries) =>
        match ProvinceEntry(lines[|lines| - 1])
        case Err(_) => Err(|lines| - 1)
        case Ok(None) => Ok(entries)
        case Ok(Some(e)) => Ok(entries + [e])
  }

  /** `prov_map`: each code to the id of the province row created for it, rows being
      numbered from `base`; a later line with the same code overwrites the earlier. */
  function ProvinceMap(entries: seq<(string, string)>, base: nat): map<string, nat> {
    if entries == [] then map[]
    else ProvinceMap(entries[..|entries| - 1], base)[entries[|entries| - 1].0 := base + |entries| - 1]
  }

  /** The province rows created, one per entry, in order. */
  function ProvinceRows(entries: seq<(string, string)>, countryId: nat): (rows: seq<ProvinceRow>)
    ensures |rows| == |entries|
    ensures forall i :: 0 <= i < |rows| ==> rows[i] == ProvinceRow(entries[i].1, countryId)
  {
    seq(|entries|, i requires 0 <= i < |entries| => ProvinceRow(entries[i].1, countryId))
  }

  /** Entry `j` is the last one with the code. */
  predicate IsLastWith(entries: seq<(string, string)>, code: string, j: int) {
    0 <= j < |entries| && entries[j].0 == code && forall k :: j < k < |entries| ==> entries[k].0 != code
  }

  /** A code is mapped iff some province line has it. */
  lemma {:induction false} ProvinceMapKeys(entries: seq<(string, string)>, base: nat)
    ensures forall code :: code in ProvinceMap(entries, base) <==>
              exists i :: 0 <= i < |entries| && entries[i].0 == code
    decreases |entries|
  {
    if entries != [] {
      var n := |entries| - 1;
      var prefix := entries[..n];
      ProvinceMapKeys(prefix, base);
      assert ProvinceMap(entries, base) == ProvinceMap(prefix, base)[entries[n].0 := base + n];
      forall code | code in ProvinceMap(prefix, base)
        ensures exists i :: 0 <= i < |entries| && entries[i].0 == code {
        var i :| 0 <= i < |prefix| && prefix[i].0 == code;
        assert entries[i] == prefix[i];
      }
      forall code, i | 0 <= i < n && entries[i].0 == code
        ensures code in ProvinceMap(prefix, base) {
        assert prefix[i] == entries[i];
      }
    }
  }

  /** A mapped code points at the row of the LAST province line with that code. */
  lemma {:induction false} ProvinceMapLast(entries: seq<(string, string)>, base: nat)
    ensures forall code :: code in ProvinceMap(entries, base) ==>
              IsLastWith(entries, code, ProvinceMap(entries, base)[code] - base)
    decreases |entries|
  {
    if entries != [] {
      var n := |entries| - 1;
      var prefix := entries[..n];
      ProvinceMapLast(prefix, base);
      var m := ProvinceMap(entries, base);
      assert m == ProvinceMap(prefix, base)[entries[n].0 := base + n];
      forall code | code in m ensures IsLastWith(entries, code, m[code] - base) {
        if code != entries[n].0 {
          var j := m[code] - base;
          assert IsLastWith(prefix, code, j);
          assert entries[j] == prefix[j];
          forall k | j < k < |entries| ensures entries[k].0 != code {
            if k < n {
              assert entries[k] == prefix[k];
            }
          }
        }
      }
    }
  }

  /** `float(field) if field else None`, the float parse left out. */
  function Coordinate(field: string): Option<string> {
    if field == [] then None else Some(field)
  }

  /** The locality one `AR.txt` line yields, if any. */
  function LocalityEntry(line: string, provinces: map<string, nat>): Option<LocalityRow> {
    var parts := Fields(line);
    if |parts| < 11 then None
    else if parts[10] in provinces then
      Some(LocalityRow(parts[1], provinces[parts[10]], Coordinate(parts[4]), Coordinate(parts[5])))
    else None
  }

  /** A line yields a locality iff it has at least eleven fields and field 10 is a loaded
      province code; the locality is named by field 1, is attached to that province and
      has no latitude (longitude) exactly when field 4 (5) is empty. */
  lemma LocalityEntrySpec(line: string, provinces: map<string, nat>)
    ensures LocalityEntry(line, provinces).Some? <==>
              |Fields(line)| >= 11 && Fields(line)[10] in provinces
    ensures LocalityEntry(line, provinces).Some? ==>
              var row := LocalityEntry(line, provinces).value;
              row.name == Fields(line)[1] && row.provinceId == provinces[Fields(line)[10]] &&
              (row.latitude.None? <==> Fields(line)[4] == []) &&
              (row.longitude.None? <==> Fields(line)[5] == [])
  {
  }

  /** The localities of the `AR.txt` lines, in file order. */
  function Localities(lines: seq<string>, provinces: map<string, nat>): (rows: seq<LocalityRow>)
    ensures |rows| <= |lines|
    ensures forall row :: row in rows ==> row.provinceId in provinces.Values
  {
    if lines == [] then []
    else
      var prev := Localities(lines[..|lines| - 1], provinces);
      match LocalityEntry(lines[|lines| - 1], provinces)
      case None => prev
      case Some(row) => prev + [row]
  }

  /** The first country row with the code, as `.filter_by(code=...).first()`. */
  function FindCountry(countries: seq<CountryRow>, code: string): (r: Option<nat>)
    ensures r.Some? ==> r.value < |countries| && countries[r.value].code == code &&
                        forall i :: 0 <= i < r.value ==> countries[i].code != code
    ensures r.None? ==> forall i :: 0 <= i < |countries| ==> countries[i].code != code
  {
    if countries == [] then None
    else if countries[0].code == code then Some(0)
    else match FindCountry(countries[1..], code)
      case None => None
      case Some(i) => Some(i + 1)
  }

  /** The province loop: reads the admin1 lines in order, creating a row per province
      line and recording its id under its code. */
  method LoadProvinces(lines: seq<string>, countryId: nat, base: nat)
    returns (r: Result<(seq<ProvinceRow>, map<string, nat>), nat>)
    ensures ProvinceEntries(lines).Err? ==> r == Err(ProvinceEntries(lines).error)
    ensures ProvinceEntries(lines).Ok? ==>
              var entries := ProvinceEntries(lines).value;
              r == Ok((ProvinceRows(entries, countryId), ProvinceMap(entries, base)))
  {
    var rows: seq<ProvinceRow> := [];
    var provMap: map<string, nat> := map[];
    ghost var entries: seq<(string, string)> := [];
    for i := 0 to |lines|
      invariant ProvinceEntries(lines[..i]) == Ok(entries)
      invariant rows == ProvinceRows(entries, countryId)
      invariant provMap == ProvinceMap(entries, base)
    {
      ProvinceEntriesNext(lines, i);
      var parsed := ProvinceEntry(lines[i]);
      match parsed {
        case Err(_) =>
          ProvinceEntriesStop(lines, i);
          return Err(i);
        case Ok(None) =>
        case Ok(Some(entry)) =>
          ProvinceStep(entries, entry, countryId, base);
          provMap := provMap[entry.0 := base + |rows|];
          rows := rows + [ProvinceRow(entry.1, countryId)];
          entries := entries + [entry];
      }
    }
    assert lines[..|lines|] == lines;
    return Ok((rows, provMap));
  }

  /** One more province line adds one row and one map entry. */
  lemma ProvinceStep(entries: seq<(string, string)>, entry: (string, string), countryId: nat, base: nat)
    ensures ProvinceRows(entries + [entry], countryId) == ProvinceRows(entries, countryId) + [ProvinceRow(entry.1, countryId)]
    ensures ProvinceMap(entries + [entry], base) == ProvinceMap(entries, base)[entry.0 := base + |entries|]
  {
    assert (entries + [entry])[..|entries|] == entries;
  }

  /** One more line extends the entries of the lines before it. */
  lemma ProvinceEntriesNext(lines: seq<string>, i: nat)
    requires i < |lines| && ProvinceEntries(lines[..i]).Ok?
    ensures ProvinceEntries(lines[..i + 1]) ==
              match ProvinceEntry(lines[i])
              case Err(_) => Err(i)
              case Ok(None) => ProvinceEntries(lines[..i])
              case Ok(Some(e)) => Ok(ProvinceEntries(lines[..i]).value + [e])
  {
    assert lines[..i + 1][..i] == lines[..i];
  }

  /** An error on a line is the error of every longer list of lines. */
  lemma {:induction false} ProvinceEntriesStop(lines: seq<string>, i: nat)
    requires i < |lines| && ProvinceEntries(lines[..i + 1]) == Err(i)
    ensures ProvinceEntries(lines) == Err(i)
    decreases |lines|
  {
    if |lines| > i + 1 {
      var shorter := lines[..|lines| - 1];
      assert shorter[..i + 1] == lines[..i + 1];
      ProvinceEntriesStop(shorter, i);
    } else {
      assert lines[..i + 1] == lines;
    }
  }

  /** The locality loop: skips short lines and lines of unknown provinces, counting the
      localities it adds. */
  method LoadLocalities(lines: seq<string>, provinces: map<string, nat>)
    returns (rows: seq<LocalityRow>, count: nat)
    ensures rows == Localities(lines, provinces)
    ensures count == |rows|
  {
    rows, count := [], 0;
    for i := 0 to |lines|
      invariant rows == Localities(lines[..i], provinces)
      invariant count == |rows|
    {
      assert lines[..i + 1][..i] == lines[..i];
      var parts := Fields(lines[i]);
      if |parts| < 11 {
        continue;
      }
      var name, admin1 := parts[1], parts[10];
      var latitude := if parts[4] != [] then Some(parts[4]) else None;
      var longitude := if parts[5] != [] then Some(parts[5]) else None;
      if admin1 in provinces {
        rows := rows + [LocalityRow(name, provinces[admin1], latitude, longitude)];
        count := count + 1;
      }
    }
    assert lines[..|lines|] == lines;
  }

  /** The country, province and locality tables. */
  class GeoStore {
    var countries: seq<CountryRow>
    var provinces: seq<ProvinceRow>
    var localities: seq<LocalityRow>

    constructor(countries: seq<CountryRow>, provinces: seq<ProvinceRow>, localities: seq<LocalityRow>)
      ensures this.countries == countries && this.provinces == provinces && this.localities == localities
    {
      this.countries, this.provinces, this.localities := countries, provinces, localities;
    }

    /** `load_geonames` on the two files' lines: returns the number of distinct province
        codes and of localities, or the position of the admin1 line whose name field is
        missing, in which case nothing is stored. */
    method Load(admin1Lines: seq<string>, arLines: seq<string>) returns (r: Result<(nat, nat), nat>)
      modifies this
      ensures ProvinceEntries(admin1Lines).Err? ==>
                r == Err(ProvinceEntries(admin1Lines).error) &&
                countries == old(countries) && provinces == old(provinces) && localities == old(localities)
      ensures ProvinceEntries(admin1Lines).Ok? ==>
                var entries := ProvinceEntries(admin1Lines).value;
                var countryId := match FindCountry(old(countries), "AR")
                                 case Some(i) => i case None => |old(countries)|;
                var provMap := ProvinceMap(entries, |old(provinces)|);
                countries == old(countries) +
                  (if FindCountry(old(countries), "AR").None? then [CountryRow("Argentina", "AR")] else []) &&
                provinces == old(provinces) + ProvinceRows(entries, countryId) &&
                localities == old(localities) + Localities(arLines, provMap) &&
                r == Ok((|provMap|, |Localities(arLines, provMap)|))
    {
      var newCountries := countries;
      var countryId: nat;
      var found := FindCountry(countries, "AR");
      if found.None? {
        countryId := |countries|;
        newCountries := countries + [CountryRow("Argentina", "AR")];
      } else {
        countryId := found.value;
      }
      var loaded := LoadProvinces(admin1Lines, countryId, |provinces|);
      if loaded.Err? {
        return Err(loaded.error);
      }
      var (rows, provMap) := loaded.value;
      var added, count := LoadLocalities(arLines, provMap);
      countries, provinces, localities := newCountries, provinces + rows, localities + added;
      return Ok((|provMap|, count));
    }
  }

  /** After a successful load the country "AR" exists, and it was created only if it was
      absent before. */
  lemma CountryCreatedOnlyIfAbsent(before: seq<CountryRow>)
    ensures var after := before + (if FindCountry(before, "AR").None? then [CountryRow("Argentina", "AR")] else []);
            FindCountry(after, "AR").Some? &&
            (|after| == |before| + 1 <==> FindCountry(before, "AR").None?)
  {
    var after := before + (if FindCountry(before, "AR").None? then [CountryRow("Argentina", "AR")] else []);
    if FindCountry(before, "AR").None? {
      assert after[|before|].code == "AR";
    } else {
      assert after == before;
    }
  }

  /** Every loaded locality is attached to a province row created by this load. */
  lemma LocalitiesAttached(entries: seq<(string, string)>, base: nat, lines: seq<string>)
    ensures forall row :: row in Localities(lines, ProvinceMap(entries, base)) ==>
              base <= row.provinceId < base + |entries|
  {
    ProvinceMapLast(entries, base);
  }
}
