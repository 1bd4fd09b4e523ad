/**
 * The query side of app.py: the group filter at the top of `create_map`, the
 * city-to-prefix translation of `update_map_by_cities`, and the region check
 * `update_map` applies to a reference point typed in by the user.
 */
module MapQuery {
  import opened Wrappers
  import opened Sequences
  import opened Text
  import opened Json
  import opened Catalog

  /** Python truthiness of `selected_cities`: `None` and `[]` are false. */
  predicate IsSelection(selected: Option<seq<string>>)
  {
    selected.Some? && selected.value != []
  }

  /** `any(id.startswith(p) for p in prefixes)`. */
  predicate InGroups(id: string, prefixes: seq<string>)
  {
    exists j :: 0 <= j < |prefixes| && StartsWith(id, prefixes[j])
  }

  predicate AllIdsText(spots: seq<Spot>)
  {
    forall i :: 0 <= i < |spots| ==> spots[i].id.JStr?
  }

  function GroupTest(prefixes: seq<string>): Spot -> Option<Spot>
  {
    (s: Spot) => if s.id.JStr? && InGroups(s.id.s, prefixes) then Some(s) else None
  }

  /** The spots, in catalog order, whose `id` starts with one of the prefixes. */
  function GroupMembers(spots: seq<Spot>, prefixes: seq<string>): seq<Spot>
  {
    FilterMap(spots, GroupTest(prefixes))
  }

  /**
   * The filter branch of `create_map`. A falsy selection deliberately shows
   * nothing. Otherwise it keeps, in order, the spots whose `id` starts with a
   * selected prefix, and fails at the first spot whose `id` is not a string.
   */
  method FilterByGroups(spots: seq<Spot>, selected: Option<seq<string>>) returns (r: Result<seq<Spot>, MapError>)
    ensures !IsSelection(selected) ==> r == Success([])
    ensures r.Failure? <==> IsSelection(selected) && !AllIdsText(spots)
    ensures r.Failure? ==>
      r.error.IdNotAString? && r.error.index < |spots| && !spots[r.error.index].id.JStr?
      && AllIdsText(spots[..r.error.index])
    ensures r.Success? && IsSelection(selected) ==> r.value == GroupMembers(spots, selected.value)
  {
    if !IsSelection(selected) {
      // no group chosen: show no spots at all
      return Success([]);
    }
    var prefixes := selected.value;
    var filtered: seq<Spot> := [];
    for i := 0 to |spots|
      invariant AllIdsText(spots[..i])
      invariant filtered == GroupMembers(spots[..i], prefixes)
    {
      assert spots[..i + 1][..i] == spots[..i];
      if !spots[i].id.JStr? {
        return Failure(IdNotAString(i));
      }
      if InGroups(spots[i].id.s, prefixes) {
        filtered := filtered + [spots[i]];
      }
    }
    assert spots[..|spots|] == spots;
    return Success(filtered);
  }

  /**
   * The spots `create_map` puts on the map: the catalog is loaded first
   * (so a load failure wins even when nothing is selected), then filtered
   * by group.
   */
  method CreateMapSpots(data: seq<JsonValue>, parse: Parser, selected: Option<seq<string>>)
    returns (r: Result<seq<Spot>, MapError>)
    ensures !AllObjects(data) ==> r.Failure? && r.error.NotAnObject?
    ensures AllObjects(data) ==>
      (r.Failure? <==> IsSelection(selected) && !AllIdsText(Normalize(Fields(data), parse)))
    ensures r.Success? ==> AllObjects(data)
    ensures r.Success? ==>
      r.value == (if IsSelection(selected) then GroupMembers(Normalize(Fields(data), parse), selected.value) else [])
  {
    var loaded := LoadFishingSpots(data, parse);
    if loaded.Failure? {
      return Failure(loaded.error);
    }
    r := FilterByGroups(loaded.value, selected);
  }

  /**
   * The group filter keeps exactly the spots whose `id` is a string starting
   * with some prefix, in catalog order: result k is the spot at position
   * Survivors[k], and those positions increase.
   */
  lemma GroupMembersExact(spots: seq<Spot>, prefixes: seq<string>)
    ensures var out := GroupMembers(spots, prefixes); var idx := Survivors(spots, GroupTest(prefixes));
      && |out| == |idx| <= |spots|
      && (forall k :: 0 <= k < |out| ==> idx[k] < |spots| && out[k] == spots[idx[k]])
      && (forall k, l :: 0 <= k < l < |idx| ==> idx[k] < idx[l])
      && (forall i :: 0 <= i < |spots| ==>
            (i in idx <==> spots[i].id.JStr? && InGroups(spots[i].id.s, prefixes)))
  {
    FilterMapBySurvivors(spots, GroupTest(prefixes));
  }

  /** A spot is shown exactly when it is in the catalog and its `id` starts with a selected prefix. */
  lemma GroupMembersMembership(spots: seq<Spot>, prefixes: seq<string>, s: Spot)
    ensures s in GroupMembers(spots, prefixes) <==>
      s in spots && s.id.JStr? && InGroups(s.id.s, prefixes)
  {
    if s in GroupMembers(spots, prefixes) {
      FilterMapSound(spots, GroupTest(prefixes), s);
    }
    if s in spots && s.id.JStr? && InGroups(s.id.s, prefixes) {
      var i :| 0 <= i < |spots| && spots[i] == s;
      FilterMapComplete(spots, GroupTest(prefixes), i);
    }
  }

  /** On the sample catalog, group "P" shows the spot "P 01" and group "C" shows nothing. */
  lemma SampleGroupQueries(spot: Spot)
    requires spot == Spot(JStr("P 01"), JStr("See"), JStr("N/A"), 52.4, 13.1)
    ensures GroupMembers([spot], ["P"]) == [spot]
    ensures GroupMembers([spot], ["C"]) == []
  {
    assert [spot][..0] == [];
    assert StartsWith("P 01", ["P"][0]);
    assert !StartsWith("P 01", ["C"][0]) by {
      assert "P 01"[..1] != "C" by { assert "P 01"[..1][0] == 'P'; }
    }
  }

  // ---------------------------------------------------------------------
  // update_map_by_cities
  // ---------------------------------------------------------------------

  const CityPrefixMap: map<string, string> := map["Potsdam" := "P", "Cottbus" := "C", "Frankfurt-Oder" := "F"]

  function CityPrefix(city: string): Option<string>
  {
    if city in CityPrefixMap then Some(CityPrefixMap[city]) else None
  }

  /** The prefixes of the known cities among the selected names, in selection order; other names are ignored. */
  function CityPrefixes(cities: seq<string>): (prefixes: seq<string>)
  {
    FilterMap(cities, CityPrefix)
  }

  /**
   * The prefixes are the known cities' prefixes in selection order: prefix k
   * belongs to the city at position Survivors[k], and a city contributes
   * exactly when it is one of the three known names.
   */
  lemma CityPrefixesExact(cities: seq<string>)
    ensures var out := CityPrefixes(cities); var idx := Survivors(cities, CityPrefix);
      && |out| == |idx| <= |cities|
      && (forall k :: 0 <= k < |out| ==>
            idx[k] < |cities| && cities[idx[k]] in CityPrefixMap && out[k] == CityPrefixMap[cities[idx[k]]])
      && (forall k, l :: 0 <= k < l < |idx| ==> idx[k] < idx[l])
      && (forall i :: 0 <= i < |cities| ==> (i in idx <==> cities[i] in CityPrefixMap))
  {
    FilterMapBySurvivors(cities, CityPrefix);
  }

  /** Whatever the selection, the prefixes are drawn from the three group letters. */
  lemma CityPrefixesAreGroupLetters(cities: seq<string>)
    ensures forall p :: p in CityPrefixes(cities) ==> p in {"P", "C", "F"}
  {
    forall p | p in CityPrefixes(cities) ensures p in {"P", "C", "F"} {
      FilterMapSound(cities, CityPrefix, p);
    }
  }

  /** An unknown name among the selected cities is ignored. */
  lemma UnknownCityIgnored(before: seq<string>, city: string, after: seq<string>)
    requires city !in CityPrefixMap
    ensures CityPrefixes(before + [city] + after) == CityPrefixes(before + after)
  {
    FilterMapSkip(before, city, after, CityPrefix);
  }

  /** Without a known name there are no prefixes. */
  lemma {:induction false} NoKnownCityNoPrefixes(cities: seq<string>)
    requires forall i :: 0 <= i < |cities| ==> cities[i] !in CityPrefixMap
    ensures CityPrefixes(cities) == []
  {
    if |cities| > 0 {
      NoKnownCityNoPrefixes(cities[..|cities| - 1]);
    }
  }

  /** The checkbox group's default (all three cities) selects the same groups as the initial map, ["P", "C", "F"]. */
  lemma DefaultSelectionMatchesInitialMap()
    ensures CityPrefixes(["Potsdam", "Cottbus", "Frankfurt-Oder"]) == ["P", "C", "F"]
  {
    assert CityPrefix("Potsdam") == Some("P");
    assert CityPrefix("Cottbus") == Some("C");
    assert CityPrefix("Frankfurt-Oder") == Some("F");
    assert CityPrefixes(["Potsdam"]) == ["P"] by {
      assert ["Potsdam"][..0] == [];
    }
    assert CityPrefixes(["Cottbus"]) == ["C"] by {
      assert ["Cottbus"][..0] == [];
    }
    assert CityPrefixes(["Frankfurt-Oder"]) == ["F"] by {
      assert ["Frankfurt-Oder"][..0] == [];
    }
    FilterMapAppend(["Potsdam"], ["Cottbus"], CityPrefix);
    assert ["Potsdam"] + ["Cottbus"] == ["Potsdam", "Cottbus"];
    FilterMapAppend(["Potsdam", "Cottbus"], ["Frankfurt-Oder"], CityPrefix);
    assert ["Potsdam", "Cottbus"] + ["Frankfurt-Oder"] == ["Potsdam", "Cottbus", "Frankfurt-Oder"];
  }

  /**
   * `update_map_by_cities`: the selected names become prefixes; when none of
   * them is known, `create_map(None)` shows no spots.
   */
  method UpdateMapByCities(data: seq<JsonValue>, parse: Parser, cities: seq<string>)
    returns (r: Result<seq<Spot>, MapError>)
    ensures !AllObjects(data) ==> r.Failure? && r.error.NotAnObject?
    ensures AllObjects(data) ==>
      (r.Failure? <==> CityPrefixes(cities) != [] && !AllIdsText(Normalize(Fields(data), parse)))
    ensures r.Success? ==> AllObjects(data)
    ensures r.Success? ==>
      r.value == (if CityPrefixes(cities) != [] then GroupMembers(Normalize(Fields(data), parse), CityPrefixes(cities)) else [])
    ensures (forall i :: 0 <= i < |cities| ==> cities[i] !in CityPrefixMap) ==> r.Success? ==> r.value == []
  {
    var selectedPrefixes := CityPrefixes(cities);
    if (forall i :: 0 <= i < |cities| ==> cities[i] !in CityPrefixMap) {
      NoKnownCityNoPrefixes(cities);
    }
    r := CreateMapSpots(data, parse, if selectedPrefixes != [] then Some(selectedPrefixes) else None);
  }

  // ---------------------------------------------------------------------
  // update_map: the reference point typed in by the user
  // ---------------------------------------------------------------------

  /** How `update_map` treats its three text inputs before it would draw anything. */
  datatype ReferenceCheck =
    | NoReferencePoint                                       // a coordinate field is empty
    | NotNumeric                                             // `float` raised ValueError
    | OutsideRegion                                          // reported with a warning, nothing filtered
    | InsideRegion(lat: real, lng: real, maxDistanceKm: real)

  function CheckReferencePoint(latIn: string, lngIn: string, distanceIn: string, parse: Parser): (check: ReferenceCheck)
  {
    if latIn == [] || lngIn == [] then NoReferencePoint
    else
      match (parse(latIn), parse(lngIn), if distanceIn == [] then Some(50.0) else parse(distanceIn))
      case (Some(lat), Some(lng), Some(d)) =>
        if !InRegion(lat, lng) then OutsideRegion else InsideRegion(lat, lng, d)
      case _ => NotNumeric
  }

  /**
   * A reference point that is numeric is never dropped silently: it is either
   * accepted with exactly the parsed coordinates (bounds inclusive, distance
   * 50 by default) or reported as outside the region.
   */
  lemma ReferencePointReported(latIn: string, lngIn: string, distanceIn: string, parse: Parser)
    requires latIn != [] && lngIn != []
    requires parse(latIn).Some? && parse(lngIn).Some?
    requires distanceIn == [] || parse(distanceIn).Some?
    ensures var c := CheckReferencePoint(latIn, lngIn, distanceIn, parse);
      var lat, lng := parse(latIn).value, parse(lngIn).value;
      && (InRegion(lat, lng) ==> c == InsideRegion(lat, lng, if distanceIn == [] then 50.0 else parse(distanceIn).value))
      && (!InRegion(lat, lng) ==> c == OutsideRegion)
  {
  }

  /** An accepted reference point lies in the supported region and is what the user typed. */
  lemma AcceptedReferencePointInRegion(latIn: string, lngIn: string, distanceIn: string, parse: Parser)
    requires CheckReferencePoint(latIn, lngIn, distanceIn, parse).InsideRegion?
    ensures var c := CheckReferencePoint(latIn, lngIn, distanceIn, parse);
      InRegion(c.lat, c.lng) && parse(latIn) == Some(c.lat) && parse(lngIn) == Some(c.lng)
  {
  }

  /** The warning is given exactly for numeric input outside the region, whatever the distance field says as long as it is numeric or empty. */
  lemma OutsideRegionExactly(latIn: string, lngIn: string, distanceIn: string, parse: Parser)
    ensures CheckReferencePoint(latIn, lngIn, distanceIn, parse) == OutsideRegion <==>
      && latIn != [] && lngIn != []
      && parse(latIn).Some? && parse(lngIn).Some?
      && (distanceIn == [] || parse(distanceIn).Some?)
      && !InRegion(parse(latIn).value, parse(lngIn).value)
  {
  }
}
