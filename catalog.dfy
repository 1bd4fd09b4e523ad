/**
 * The catalog validator of app.py: `load_fishing_spots` turns the decoded
 * contents of data.json, one record at a time, into spots whose coordinates
 * lie in the supported region. A record that fails a check is skipped
 * without a report.
 */
module Catalog {
  import opened Wrappers
  import opened Sequences
  import opened Text
  import opened Json

  /** A validated fishing spot: `id`, `bezeichnung` and `verein` are copied as found; `lat` and `lng` are parsed. */
  datatype Spot = Spot(id: JsonValue, bezeichnung: JsonValue, verein: JsonValue, lat: real, lng: real)

  /** One record of data.json: a JSON object. */
  type Record = map<string, JsonValue>

  /** Python's `float(text)`: the number a string denotes, or None where `float` raises `ValueError`. */
  type Parser = string -> Option<real>

  /** The Python exceptions that escape `create_map`. */
  datatype MapError =
    | NotAnObject(index: nat)    // data[index] has no `.get` (AttributeError in load_fishing_spots)
    | IdNotAString(index: nat)   // spots[index]['id'] has no `.startswith` (AttributeError in create_map)

  /** The supported region, all four bounds inclusive. */
  predicate InRegion(lat: real, lng: real)
  {
    47.0 <= lat <= 55.0 && 5.0 <= lng <= 16.0
  }

  /** The guard before the `try`: all four fields present and truthy, neither coordinate equal to 0. */
  predicate PassesPresenceCheck(rec: Record)
  {
    && Truthy(Get(rec, "lat")) && Truthy(Get(rec, "lng"))
    && Truthy(Get(rec, "id")) && Truthy(Get(rec, "bezeichnung"))
    && !EqualsZero(Get(rec, "lat")) && !EqualsZero(Get(rec, "lng"))
  }

  /**
   * Converting a coordinate to a float: a number converts to itself, a string is
   * stripped and parsed, and `str` of a boolean, list or object (`True`,
   * `[...]`, `{...}`) is never a float literal.
   */
  function ToFloat(v: JsonValue, parse: Parser): (value: Option<real>)
  {
    match v
    case JNum(n) => Some(n)
    case JStr(s) => parse(Strip(s))
    case _ => None
  }

  /** The fate of one record: the spot it becomes, or None when it is skipped. */
  function Validate(rec: Record, parse: Parser): (spot: Option<Spot>)
  {
    if !PassesPresenceCheck(rec) then None
    else
      match (ToFloat(rec["lat"], parse), ToFloat(rec["lng"], parse))
      case (Some(lat), Some(lng)) =>
        if InRegion(lat, lng)
        then Some(Spot(rec["id"], rec["bezeichnung"], GetOr(rec, "verein", JStr("N/A")), lat, lng))
        else None
      case _ => None
  }

  function Validator(parse: Parser): Record -> Option<Spot>
  {
    rec => Validate(rec, parse)
  }

  /** The spots `load_fishing_spots` returns for a list of records. */
  function Normalize(records: seq<Record>, parse: Parser): (spots: seq<Spot>)
  {
    FilterMap(records, Validator(parse))
  }

  predicate AllObjects(data: seq<JsonValue>)
  {
    forall i :: 0 <= i < |data| ==> data[i].JObj?
  }

  function Fields(data: seq<JsonValue>): (records: seq<Record>)
    requires AllObjects(data)
    ensures |records| == |data|
    ensures forall i :: 0 <= i < |data| ==> records[i] == data[i].fields
  {
    seq(|data|, i requires 0 <= i < |data| => data[i].fields)
  }

  /**
   * The loop of `load_fishing_spots` over the decoded data.json. It fails
   * only at an element that is not an object, where `spot.get` raises
   * outside the `try`; otherwise it returns every surviving record's spot
   * in input order.
   */
  method LoadFishingSpots(data: seq<JsonValue>, parse: Parser) returns (r: Result<seq<Spot>, MapError>)
    ensures r.Success? <==> AllObjects(data)
    ensures r.Failure? ==>
      r.error.NotAnObject? && r.error.index < |data| && !data[r.error.index].JObj?
      && AllObjects(data[..r.error.index])
    ensures r.Success? ==> r.value == Normalize(Fields(data), parse)
  {
    var filtered: seq<Spot> := [];
    for i := 0 to |data|
      invariant AllObjects(data[..i])
      invariant filtered == Normalize(Fields(data[..i]), parse)
    {
      if !data[i].JObj? {
        return Failure(NotAnObject(i));
      }
      var spot := data[i].fields;
      ghost var records := Fields(data[..i]);
      assert Fields(data[..i + 1]) == records + [spot];
      assert (records + [spot])[..|records|] == records;
      ghost var before := filtered;
      if PassesPresenceCheck(spot) {
        var lat := ToFloat(spot["lat"], parse);
        var lng := ToFloat(spot["lng"], parse);
        if lat.Some? && lng.Some? {
          if InRegion(lat.value, lng.value) {
            filtered := filtered + [Spot(spot["id"], spot["bezeichnung"], GetOr(spot, "verein", JStr("N/A")), lat.value, lng.value)];
          }
        }
        // float() raising ValueError: the record is skipped (`continue`)
      }
      assert filtered == before + Emit(Validator(parse)(spot));
    }
    assert data[..|data|] == data;
    return Success(filtered);
  }

  // ---------------------------------------------------------------------
  // What a single record's fate depends on
  // ---------------------------------------------------------------------

  /** A record missing any of the four required fields, or holding a falsy value there, is skipped. */
  lemma RejectsFalsyField(rec: Record, parse: Parser, key: string)
    requires key in {"id", "bezeichnung", "lat", "lng"}
    requires !Truthy(Get(rec, key))
    ensures Validate(rec, parse) == None
  {
  }

  /** A coordinate that is the number 0 is skipped; the string "0" passes the guard, but its value 0 lies outside the region. */
  lemma ZeroCoordinateRejected(rec: Record, parse: Parser)
    requires Get(rec, "lat") == JNum(0.0) || Get(rec, "lng") == JNum(0.0)
      || (Get(rec, "lat") == JStr("0") && parse("0") == Some(0.0))
      || (Get(rec, "lng") == JStr("0") && parse("0") == Some(0.0))
    ensures Validate(rec, parse) == None
    ensures !EqualsZero(JStr("0")) && Truthy(JStr("0"))
  {
    StripUnchanged("0");
  }

  /** A coordinate `float` cannot parse makes the record, and only that record, disappear. */
  lemma UnparsableCoordinateSkipped(before: seq<Record>, rec: Record, after: seq<Record>, parse: Parser)
    requires ToFloat(Get(rec, "lat"), parse).None? || ToFloat(Get(rec, "lng"), parse).None?
    ensures Validate(rec, parse) == None
    ensures Normalize(before + [rec] + after, parse) == Normalize(before + after, parse)
  {
    FilterMapSkip(before, rec, after, Validator(parse));
  }

  /** Coordinates that parse to a point outside the region make the record disappear. */
  lemma RejectsOutsideRegion(rec: Record, parse: Parser, lat: real, lng: real)
    requires ToFloat(Get(rec, "lat"), parse) == Some(lat) && ToFloat(Get(rec, "lng"), parse) == Some(lng)
    requires !InRegion(lat, lng)
    ensures Validate(rec, parse) == None
  {
  }

  /**
   * A record that passes the guard and whose coordinates parse into the
   * region, bounds included, becomes a spot with `id` and `bezeichnung`
   * copied, the parsed coordinates, and `verein` copied or 'N/A'.
   */
  lemma AcceptsValidRecord(rec: Record, parse: Parser, lat: real, lng: real)
    requires PassesPresenceCheck(rec)
    requires ToFloat(Get(rec, "lat"), parse) == Some(lat) && ToFloat(Get(rec, "lng"), parse) == Some(lng)
    requires InRegion(lat, lng)
    ensures Validate(rec, parse) == Some(Spot(rec["id"], rec["bezeichnung"],
      if "verein" in rec then rec["verein"] else JStr("N/A"), lat, lng))
  {
  }

  /** Everything a validated spot is known to satisfy, read off the record it came from. */
  lemma ValidatedSpotFacts(rec: Record, parse: Parser)
    requires Validate(rec, parse).Some?
    ensures var s := Validate(rec, parse).value;
      && "id" in rec && "bezeichnung" in rec && "lat" in rec && "lng" in rec
      && s.id == rec["id"] && Truthy(s.id)
      && s.bezeichnung == rec["bezeichnung"] && Truthy(s.bezeichnung)
      && s.verein == (if "verein" in rec then rec["verein"] else JStr("N/A"))
      && ToFloat(rec["lat"], parse) == Some(s.lat) && ToFloat(rec["lng"], parse) == Some(s.lng)
      && s.lat != 0.0 && s.lng != 0.0
      && InRegion(s.lat, s.lng)
  {
  }

  // ---------------------------------------------------------------------
  // What the whole pass guarantees
  // ---------------------------------------------------------------------

  /**
   * The output is exactly the accepted records' spots, in input order:
   * spot k comes from record Survivors[k], the positions increase, and a
   * record is among them exactly when it is accepted.
   */
  lemma NormalizeKeepsAcceptedInOrder(records: seq<Record>, parse: Parser)
    ensures var out := Normalize(records, parse); var idx := Survivors(records, Validator(parse));
      && |out| == |idx| <= |records|
      && (forall k :: 0 <= k < |out| ==> idx[k] < |records| && Validate(records[idx[k]], parse) == Some(out[k]))
      && (forall k, l :: 0 <= k < l < |idx| ==> idx[k] < idx[l])
      && (forall i :: 0 <= i < |records| ==> (i in idx <==> Validate(records[i], parse).Some?))
  {
    FilterMapBySurvivors(records, Validator(parse));
  }

  /** Every spot in the output lies in the supported region and has non-empty `id` and `bezeichnung`. */
  lemma {:induction false} NormalizeInRegion(records: seq<Record>, parse: Parser)
    ensures forall s :: s in Normalize(records, parse) ==>
      InRegion(s.lat, s.lng) && Truthy(s.id) && Truthy(s.bezeichnung)
  {
    forall s | s in Normalize(records, parse)
      ensures InRegion(s.lat, s.lng) && Truthy(s.id) && Truthy(s.bezeichnung)
    {
      FilterMapSound(records, Validator(parse), s);
      var i :| 0 <= i < |records| && Validate(records[i], parse) == Some(s);
      ValidatedSpotFacts(records[i], parse);
    }
  }

  /** Records are judged independently: loading a concatenation concatenates the loads. */
  lemma NormalizeAppend(xs: seq<Record>, ys: seq<Record>, parse: Parser)
    ensures Normalize(xs + ys, parse) == Normalize(xs, parse) + Normalize(ys, parse)
  {
    FilterMapAppend(xs, ys, Validator(parse));
  }

  /** Loading two records yields the first one's spot, if any, then the second one's. */
  lemma NormalizePair(a: Record, b: Record, parse: Parser)
    ensures Normalize([a, b], parse) == Emit(Validate(a, parse)) + Emit(Validate(b, parse))
  {
    NormalizeAppend([a], [b], parse);
    assert [a] + [b] == [a, b];
    assert [a][..0] == [] && [b][..0] == [];
  }

  /** The sample record "P 01" with string coordinates "52.40" / "13.10" is accepted. */
  lemma SampleRecordAccepted(parse: Parser, rec: Record)
    requires parse("52.40") == Some(52.4) && parse("13.10") == Some(13.1)
    requires rec == map["id" := JStr("P 01"), "bezeichnung" := JStr("See"), "lat" := JStr("52.40"), "lng" := JStr("13.10")]
    ensures Validate(rec, parse) == Some(Spot(JStr("P 01"), JStr("See"), JStr("N/A"), 52.4, 13.1))
  {
    StripUnchanged("52.40");
    StripUnchanged("13.10");
    AcceptsValidRecord(rec, parse, 52.4, 13.1);
  }

  /**
   * The example catalog of two records: the first, with string coordinates,
   * survives; the second has an empty `bezeichnung` and zero coordinates and
   * is skipped.
   */
  lemma TwoRecordExample(parse: Parser, first: Record, second: Record)
    requires parse("52.40") == Some(52.4) && parse("13.10") == Some(13.1)
    requires first == map["id" := JStr("P 01"), "bezeichnung" := JStr("See"), "lat" := JStr("52.40"), "lng" := JStr("13.10")]
    requires second == map["id" := JStr("X"), "bezeichnung" := JStr(""), "lat" := JNum(0.0), "lng" := JNum(0.0)]
    ensures Normalize([first, second], parse) == [Spot(JStr("P 01"), JStr("See"), JStr("N/A"), 52.4, 13.1)]
  {
    SampleRecordAccepted(parse, first);
    assert Validate(second, parse) == None by {
      RejectsFalsyField(second, parse, "bezeichnung");
    }
    NormalizePair(first, second, parse);
  }
}
