/**
 * The harvester of spot_info_extractor.py: `main` gathers identifiers from
 * four newline-delimited files, drops duplicates, asks the lookup service
 * about each remaining identifier once, and collects one outcome per
 * identifier (the fetched record or an error placeholder) for data.json.
 */
module Harvester {
  import opened Wrappers
  import opened Sequences
  import opened Text
  import opened Json

  // ---------------------------------------------------------------------
  // query_fishing_spot
  // ---------------------------------------------------------------------

  /** What one lookup of an identifier ends in: the decoded body, or the exception `query_fishing_spot` catches. */
  datatype FetchOutcome =
    | Fetched(body: JsonValue)
    | RequestError(message: string)   // a requests.exceptions.RequestException: transport failure or a bad status
    | DecodeError(message: string)    // a json.JSONDecodeError raised by response.json()

  /** The lookup service: the outcome of the GET request for an identifier. */
  type Fetch = string -> FetchOutcome

  /** The dictionary returned in place of a record when a lookup fails. */
  function ErrorPlaceholder(message: string, id: string): JsonValue
  {
    JObj(map["error" := JStr(message), "gewaesser_id" := JStr(id)])
  }

  /** `query_fishing_spot`: never raises; a failure becomes a placeholder naming the identifier. */
  function QueryFishingSpot(id: string, fetch: Fetch): (outcome: JsonValue)
  {
    match fetch(id)
    case Fetched(body) => body
    case RequestError(message) => ErrorPlaceholder(message, id)
    case DecodeError(message) => ErrorPlaceholder("JSON decode error: " + message, id)
  }

  /**
   * A successful lookup is passed on unchanged; a failed one yields an
   * object with exactly the keys "error" and "gewaesser_id", the latter
   * holding the identifier that was asked about.
   */
  lemma QueryOutcome(id: string, fetch: Fetch)
    ensures fetch(id).Fetched? ==> QueryFishingSpot(id, fetch) == fetch(id).body
    ensures !fetch(id).Fetched? ==>
      var r := QueryFishingSpot(id, fetch);
      && r.JObj? && r.fields.Keys == {"error", "gewaesser_id"}
      && r.fields["gewaesser_id"] == JStr(id)
      && r.fields["error"] == JStr(if fetch(id).RequestError? then fetch(id).message
                                   else "JSON decode error: " + fetch(id).message)
  {
  }

  // ---------------------------------------------------------------------
  // Reading the identifier files
  // ---------------------------------------------------------------------

  /** The input files, in the order `main` reads them. */
  const IdFiles: seq<string> := ["potsdam_ids.txt", "cottbus_ids.txt", "frankfurt_oder_ids.txt", "salmoniden_ids.txt"]

  /** The file system as `main` sees it: the lines of a named file, or None when opening it raises FileNotFoundError. */
  type FileSystem = string -> Option<seq<string>>

  function LineId(line: string): Option<string>
  {
    if Strip(line) != [] then Some(Strip(line)) else None
  }

  /** The identifiers of one file: each non-blank line, stripped, in file order. */
  function StrippedIds(lines: seq<string>): seq<string>
  {
    FilterMap(lines, LineId)
  }

  function LinesOf(fs: FileSystem, name: string): seq<string>
  {
    match fs(name)
    case Some(lines) => lines
    case None => []
  }

  /** The identifiers of the named files, file after file. */
  function IdsFrom(names: seq<string>, fs: FileSystem): seq<string>
  {
    if |names| == 0 then []
    else IdsFrom(names[..|names| - 1], fs) + StrippedIds(LinesOf(fs, names[|names| - 1]))
  }

  /** Every named file exists. */
  predicate AllPresent(names: seq<string>, fs: FileSystem)
  {
    |names| == 0 || (AllPresent(names[..|names| - 1], fs) && fs(names[|names| - 1]).Some?)
  }

  /** When every named file exists, so does each one of them. */
  lemma {:induction false} AllPresentAt(names: seq<string>, fs: FileSystem, j: nat)
    requires AllPresent(names, fs) && j < |names|
    ensures fs(names[j]).Some?
  {
    if j < |names| - 1 {
      AllPresentAt(names[..|names| - 1], fs, j);
    }
  }

  /**
   * The `try` block of `main`, over the files in the order given: extend the
   * list file by file; the first file that does not exist ends the run
   * before anything else happens, and its name is reported.
   */
  method ReadIdFiles(names: seq<string>, fs: FileSystem) returns (r: Result<seq<string>, string>)
    ensures r.Success? <==> AllPresent(names, fs)
    ensures r.Failure? ==>
      exists k :: 0 <= k < |names| && r.error == names[k] && fs(names[k]).None? && AllPresent(names[..k], fs)
    ensures r.Success? ==> r.value == IdsFrom(names, fs)
  {
    var ids: seq<string> := [];
    for k := 0 to |names|
      invariant AllPresent(names[..k], fs)
      invariant ids == IdsFrom(names[..k], fs)
    {
      assert names[..k + 1][..k] == names[..k];
      var file := fs(names[k]);
      if file.None? {
        if AllPresent(names, fs) {
          AllPresentAt(names, fs, k);
        }
        return Failure(names[k]);
      }
      ids := ids + StrippedIds(file.value);
    }
    assert names[..|names|] == names;
    return Success(ids);
  }

  /**
   * The identifiers of a file are its non-blank lines, stripped, in file
   * order: identifier k is the stripped line at position Survivors[k], and a
   * line contributes exactly when it is not blank.
   */
  lemma StrippedIdsExact(lines: seq<string>)
    ensures var ids := StrippedIds(lines); var idx := Survivors(lines, LineId);
      && |ids| == |idx| <= |lines|
      && (forall k :: 0 <= k < |ids| ==> idx[k] < |lines| && ids[k] == Strip(lines[idx[k]]))
      && (forall k, l :: 0 <= k < l < |idx| ==> idx[k] < idx[l])
      && (forall i :: 0 <= i < |lines| ==> (i in idx <==> !IsBlank(lines[i])))
  {
    FilterMapBySurvivors(lines, LineId);
  }

  /** No identifier is empty and none has whitespace left at either end. */
  lemma {:induction false} IdsAreStrippedAndNonEmpty(names: seq<string>, fs: FileSystem)
    ensures forall x :: x in IdsFrom(names, fs) ==> x != [] && Strip(x) == x
  {
    if |names| > 0 {
      IdsAreStrippedAndNonEmpty(names[..|names| - 1], fs);
      var lines := LinesOf(fs, names[|names| - 1]);
      forall x | x in StrippedIds(lines) ensures x != [] && Strip(x) == x {
        FilterMapSound(lines, LineId, x);
        var i :| 0 <= i < |lines| && LineId(lines[i]) == Some(x);
        StripIdempotent(lines[i]);
      }
    }
  }

  /** The identifiers come file by file in the order potsdam, cottbus, frankfurt_oder, salmoniden. */
  lemma IdsInFileOrder(fs: FileSystem)
    ensures IdsFrom(IdFiles, fs) ==
      StrippedIds(LinesOf(fs, "potsdam_ids.txt")) + StrippedIds(LinesOf(fs, "cottbus_ids.txt"))
      + StrippedIds(LinesOf(fs, "frankfurt_oder_ids.txt")) + StrippedIds(LinesOf(fs, "salmoniden_ids.txt"))
  {
    var f1, f2, f3, f4 := "potsdam_ids.txt", "cottbus_ids.txt", "frankfurt_oder_ids.txt", "salmoniden_ids.txt";
    assert [f1, f2, f3, f4][..3] == [f1, f2, f3];
    assert [f1, f2, f3][..2] == [f1, f2];
    assert [f1, f2][..1] == [f1];
    assert [f1][..0] == [];
    assert IdsFrom([f1], fs) == StrippedIds(LinesOf(fs, f1));
    assert IdsFrom([f1, f2], fs) == IdsFrom([f1], fs) + StrippedIds(LinesOf(fs, f2));
    assert IdsFrom([f1, f2, f3], fs) == IdsFrom([f1, f2], fs) + StrippedIds(LinesOf(fs, f3));
    assert IdsFrom([f1, f2, f3, f4], fs) == IdsFrom([f1, f2, f3], fs) + StrippedIds(LinesOf(fs, f4));
  }

  // ---------------------------------------------------------------------
  // Deduplication and the query loop
  // ---------------------------------------------------------------------

  /** `list(set(ids))`: the distinct identifiers, in an order the model leaves open. */
  method Deduplicate(ids: seq<string>) returns (unique: seq<string>)
    ensures NoDuplicates(unique)
    ensures forall x :: x in unique <==> x in ids
    ensures |unique| == |Elements(ids)| <= |ids|
  {
    var pending := Elements(ids);
    unique := [];
    while pending != {}
      invariant NoDuplicates(unique)
      invariant forall x :: x in unique ==> x !in pending
      invariant forall x :: x in ids <==> x in unique || x in pending
      invariant pending <= Elements(ids)
      decreases |pending|
    {
      var x :| x in pending;
      unique := unique + [x];
      pending := pending - {x};
    }
    ElementsSize(ids);
    ElementsSize(unique);
    assert Elements(unique) == Elements(ids);
  }

  /** The `for` loop of `main`: one outcome per identifier, in the same order. */
  method CollectResults(ids: seq<string>, fetch: Fetch) returns (results: seq<JsonValue>)
    ensures |results| == |ids|
    ensures forall i :: 0 <= i < |ids| ==> results[i] == QueryFishingSpot(ids[i], fetch)
  {
    results := [];
    for i := 0 to |ids|
      invariant |results| == i
      invariant forall j :: 0 <= j < i ==> results[j] == QueryFishingSpot(ids[j], fetch)
    {
      var result := QueryFishingSpot(ids[i], fetch);
      results := results + [result];
    }
  }

  /** How a run of `main` ends. */
  datatype HarvestOutcome =
    | MissingInput(file: string)                               // returned early: no query, nothing written
    | Harvested(queried: seq<string>, results: seq<JsonValue>)  // `results` is what is dumped into data.json

  /**
   * `main`: read the four files, stop at a missing one; otherwise query every
   * distinct identifier exactly once and collect its outcome in its slot.
   */
  method RunHarvest(fs: FileSystem, fetch: Fetch) returns (outcome: HarvestOutcome)
    ensures outcome.MissingInput? <==> !AllPresent(IdFiles, fs)
    ensures outcome.MissingInput? ==>
      exists k :: 0 <= k < |IdFiles| && outcome.file == IdFiles[k] && fs(IdFiles[k]).None? && AllPresent(IdFiles[..k], fs)
    ensures outcome.Harvested? ==>
      && NoDuplicates(outcome.queried)
      && (forall x :: x in outcome.queried <==> x in IdsFrom(IdFiles, fs))
      && (forall x :: x in outcome.queried ==> x != [] && Strip(x) == x)
      && |outcome.results| == |outcome.queried|
      && (forall i :: 0 <= i < |outcome.queried| ==>
            outcome.results[i] == QueryFishingSpot(outcome.queried[i], fetch))
  {
    var read := ReadIdFiles(IdFiles, fs);
    if read.Failure? {
      return MissingInput(read.error);
    }
    var idsToQuery := Deduplicate(read.value);
    IdsAreStrippedAndNonEmpty(IdFiles, fs);
    var results := CollectResults(idsToQuery, fetch);
    return Harvested(idsToQuery, results);
  }

  /**
   * The identifiers ["A", "A", "B"] against a service that fails for "B":
   * "A" is asked about once, and the two outcomes are A's record and B's
   * placeholder, in whichever order the set yields them.
   */
  method DuplicateAndFailureExample(fetch: Fetch) returns (results: seq<JsonValue>)
    requires fetch("A").Fetched? && fetch("B").RequestError?
    ensures |results| == 2
    ensures multiset(results) == multiset{fetch("A").body, ErrorPlaceholder(fetch("B").message, "B")}
  {
    var ids := ["A", "A", "B"];
    assert Elements(ids) == {"A", "B"};
    var unique := Deduplicate(ids);
    assert "A" in unique && "B" in unique;
    assert unique == ["A", "B"] || unique == ["B", "A"] by {
      assert |unique| == 2;
      assert unique[0] in ids && unique[1] in ids;
    }
    results := CollectResults(unique, fetch);
    var a, b := QueryFishingSpot("A", fetch), QueryFishingSpot("B", fetch);
    assert a == fetch("A").body && b == ErrorPlaceholder(fetch("B").message, "B");
    if unique == ["A", "B"] {
      assert results == [a, b];
    } else {
      assert results == [b, a];
    }
  }
}
