# Brandenburg fishing-spot catalog: a Dafny model

This project models the two small core pieces of the Brandenburg fishing-water
map (`brandenburg-angeln-gewaesser`) and proves properties about them.

- **Catalog validation and group filtering (app.py).**
  - `load_fishing_spots` turns the records of `data.json` into validated spots.
    It checks Python truthiness of `id`, `bezeichnung`, `lat` and `lng`, rejects
    a coordinate equal to `0`, strips and parses the coordinates, and keeps only
    points inside the box lat 47–55, lng 5–16 (all bounds inclusive).
    Any other bad record is skipped silently.
  - `create_map` keeps, in order, the spots whose `id` starts with a selected
    prefix. No selection shows no spots.
  - `update_map_by_cities` maps the names Potsdam/Cottbus/Frankfurt-Oder to the
    prefixes P/C/F and ignores any other name.
  - `update_map` checks a typed-in reference point against the same box. It
    reports a point outside the box instead of filtering it away.
- **Harvesting (spot_info_extractor.py).**
  - `main` reads identifiers from four line-per-identifier files. It strips
    each line and skips blank ones.
  - It removes duplicates with a set, queries the lookup service once per
    identifier, and collects exactly one outcome per identifier.
  - `query_fishing_spot` turns a failed lookup into an
    `{"error": …, "gewaesser_id": …}` placeholder instead of raising.

Modules, one file each: `Wrappers` (Option, Result); `Sequences` (`FilterMap`);
`Text` (Python `str.strip`, `str.startswith`); `Json` (decoded JSON values,
Python truthiness and `== 0`); `Catalog` (`load_fishing_spots`); `MapQuery`
(`create_map`'s filter, `update_map_by_cities`, `update_map`'s check);
`Harvester` (spot_info_extractor.py).

`FilterMap` models the list-building pattern both scripts use: a forward pass
that appends a derived item for each element passing a test. It covers
`for … if …: append(…)` and `[g(x) for x in xs if c(x)]`. The lemma
`FilterMapBySurvivors` proves that the result is exactly the passing elements'
items, in input order. The validator, the group filter, the city translation
and the line stripping all reuse that one lemma.

The loops of the source are methods with loop invariants:
- `LoadFishingSpots` and `FilterByGroups`, each proved equal to a
  specification built on `FilterMap`;
- `ReadIdFiles`, `Deduplicate` and `CollectResults`, which make up `main`.

Python's `float` on a string is the parameter `parse`, and the lookup service
is the parameter `fetch`. The file system holding the identifier files is the
parameter `fs`. Nothing in the model reads a file or uses the network.

Notes on behaviour, where this model follows the code:
- A record of `data.json` that is not a JSON object makes `spot.get` raise
  `AttributeError` outside the `try`. That aborts the whole load
  (`MapError.NotAnObject`). Per-record skipping applies only to objects, so a
  malformed record can make the load raise.
- A spot whose `id` is truthy but not a string (say a number) passes
  validation. It then makes `spot_id.startswith` raise inside `create_map`
  whenever a group is selected (`MapError.IdNotAString`).
- The test `lat != 0 and lng != 0` rejects nothing the truthiness test has not
  already rejected (`Json.ZeroIsFalsy`). The string `"0"` passes both tests
  and is then rejected by the region box.
- The catalog keeps duplicate ids if `data.json` holds them. The validator
  never checks ids for uniqueness.
- `data.json` is opened for writing, which truncates it, before the dump
  starts. A failed write is printed and swallowed, so the code makes no
  all-or-nothing promise about the store.

## Model

| member | source | states |
|---|---|---|
| `Catalog.LoadFishingSpots` | app.py:7-37 | Fails exactly when some element of the data is not an object, and reports the first such element. Otherwise returns exactly `Normalize` of the records: each record's fate decided on its own, survivors kept in input order |
| `Catalog.RejectsFalsyField` | app.py:16-17 | A record whose `id`, `bezeichnung`, `lat` or `lng` is missing or falsy (null, false, 0, "", [], {}) is skipped |
| `Catalog.ZeroCoordinateRejected` | app.py:16-26 | A coordinate that is the number 0 gets the record skipped. The string "0" passes the guard (truthy, not equal to 0) but its value lies outside the region, so that record is skipped too |
| `Json.ZeroIsFalsy` | app.py:16-18 | Every JSON value equal to 0 (0 and false) is already falsy, so the `!= 0` test adds nothing to the truthiness test |
| `Catalog.UnparsableCoordinateSkipped` | app.py:20-35 | A coordinate `float` cannot parse removes that record and only that one: the spots loaded from the records before and after it are unchanged |
| `Catalog.RejectsOutsideRegion` | app.py:26 | Coordinates that parse to a point outside lat 47–55 / lng 5–16 get the record skipped |
| `Catalog.AcceptsValidRecord` | app.py:16-33 | A record that passes the guard, with coordinates parsing into the region, bounds included, becomes a spot. `id` and `bezeichnung` are copied unchanged, the coordinates are the parsed ones, and `verein` is the record's value or 'N/A' when the key is absent |
| `Catalog.ValidatedSpotFacts` | app.py:16-33 | Conversely, every accepted record had all four keys, truthy `id` and `bezeichnung`, and coordinates that parse to non-zero values in the region. Its spot copies `id`, `bezeichnung` and `verein` (or 'N/A') |
| `Catalog.NormalizeKeepsAcceptedInOrder` | app.py:13-37 | The output is an order-preserving subsequence of the input, no longer than the input. Spot k comes from an accepted record at position idx[k], the positions increase, and a record is among them exactly when it is accepted |
| `Catalog.NormalizeInRegion` | app.py:26-33 | Every loaded spot lies in the supported region, bounds inclusive, and has a truthy `id` and `bezeichnung` |
| `Catalog.NormalizeAppend` | app.py:14-35 | Records are judged independently: loading a concatenation gives the concatenation of the loads |
| `Catalog.SampleRecordAccepted` | app.py:20-33 | The record "P 01" with string coordinates "52.40"/"13.10" becomes a spot with `verein` 'N/A' |
| `Catalog.TwoRecordExample` | app.py:13-37 | From that record and one with an empty `bezeichnung` and zero coordinates, exactly one spot is loaded |
| `Text.Strip` | app.py:22-23 | Neither end of the result is whitespace, and the result is empty exactly when the input is blank (empty or all whitespace) |
| `Text.StripIsFramedInfix` | app.py:22-23 | The result is a contiguous infix of the input, and everything cut off before and after it is whitespace |
| `Text.StripIdempotent` | spot_info_extractor.py:49 | Stripping an already stripped string changes nothing |
| `MapQuery.FilterByGroups` | app.py:59-69 | A falsy selection (None or []) gives no spots. Otherwise it fails exactly when some spot's `id` is not a string, reporting the first. When it succeeds, it returns the spots whose `id` starts with a selected prefix, in catalog order |
| `MapQuery.CreateMapSpots` | app.py:55-69 | The data are loaded before the selection is looked at, so a load failure wins. Then: no spots without a selection, else the selected groups' members of the loaded catalog |
| `MapQuery.GroupMembersExact` | app.py:60-66 | The group filter's result is an order-preserving subsequence of the catalog. A spot is in it exactly when its `id` is a string starting with at least one prefix (OR over prefixes) |
| `MapQuery.GroupMembersMembership` | app.py:62-65 | A spot is shown exactly when it is in the catalog and its `id` starts with a selected prefix |
| `MapQuery.SampleGroupQueries` | app.py:60-66 | On the catalog holding spot "P 01", group "P" shows that spot and group "C" shows nothing |
| `MapQuery.CityPrefixesExact` | app.py:399-406 | The prefixes are the known cities' prefixes, in selection order. A name contributes exactly when it is Potsdam, Cottbus or Frankfurt-Oder |
| `MapQuery.CityPrefixesAreGroupLetters` | app.py:399-406 | Whatever is selected, every prefix is P, C or F |
| `MapQuery.UnknownCityIgnored` | app.py:406 | Adding an unknown name anywhere in the selection leaves the prefixes unchanged |
| `MapQuery.NoKnownCityNoPrefixes` | app.py:406-409 | A selection with no known name yields no prefixes |
| `MapQuery.DefaultSelectionMatchesInitialMap` | app.py:381-391 | The default checkbox state (all three cities) selects the same prefixes as the initial map, ["P", "C", "F"] |
| `MapQuery.UpdateMapByCities` | app.py:397-410 | Shows the loaded spots of the selected cities' groups. With no known city selected, `create_map(None)` shows no spots; load and id failures are as in `CreateMapSpots` |
| `MapQuery.ReferencePointReported` | app.py:150-158 | About `MapQuery.CheckReferencePoint`, the model of `update_map`'s check: a numeric reference point is never dropped silently. Inside the box (bounds inclusive) it is accepted with exactly the parsed coordinates and a distance of 50 unless one is given. Outside the box it is reported as outside the region |
| `MapQuery.AcceptedReferencePointInRegion` | app.py:151-157 | An accepted reference point (`InsideRegion` from `MapQuery.CheckReferencePoint`) lies in the region and is what parsing the user's input gave |
| `MapQuery.OutsideRegionExactly` | app.py:151-158 | `MapQuery.CheckReferencePoint` gives the region warning exactly when both coordinates are non-empty and parse, the distance is empty or parses, and the point lies outside the box |
| `Harvester.QueryOutcome` | spot_info_extractor.py:22-36 | About `Harvester.QueryFishingSpot`, the model of `query_fishing_spot`: a successful lookup is returned unchanged. A request or decode failure yields an object with exactly the keys "error" and "gewaesser_id"; the latter holds the identifier asked about and the former the message, with "JSON decode error: " prefixed for decode failures |
| `Harvester.ReadIdFiles` | spot_info_extractor.py:47-61 | Fails exactly when some file is missing, naming the first missing one. Otherwise returns the stripped non-blank lines of all files, concatenated in the order the files are read |
| `Harvester.StrippedIdsExact` | spot_info_extractor.py:49 | A file's identifiers are its non-blank lines, stripped, in file order. A line contributes exactly when it is not all whitespace |
| `Harvester.AllPresentAt` | spot_info_extractor.py:47-58 | When all files exist, so does each one of them; a missing file at any position means not all are present |
| `Harvester.IdsAreStrippedAndNonEmpty` | spot_info_extractor.py:48-58 | No collected identifier is empty, and none has whitespace at either end |
| `Harvester.IdsInFileOrder` | spot_info_extractor.py:47-58 | The identifiers of potsdam, cottbus, frankfurt_oder and salmoniden come in that order |
| `Harvester.Deduplicate` | spot_info_extractor.py:69 | The deduplicated list has no duplicates and holds exactly the same identifiers as before. Its length is the number of distinct identifiers, at most the original length; its order is left open |
| `Harvester.CollectResults` | spot_info_extractor.py:70-77 | Exactly one outcome per identifier, in the same order: slot i holds the query outcome for identifier i, so one failure never stops the loop |
| `Harvester.RunHarvest` | spot_info_extractor.py:38-77 | A missing input file ends the run before any query, naming the first missing file. Otherwise every distinct, stripped, non-empty identifier is queried exactly once, and its outcome fills its slot in the results |
| `Harvester.DuplicateAndFailureExample` | spot_info_extractor.py:69-77 | For identifiers ["A", "A", "B"] and a service that fails for "B": exactly two outcomes, A's fetched record and B's error placeholder |

## Left out

- `calculate_distance` (haversine, app.py:39-53) is floating-point trigonometry and is not modelled.
- Distance filtering is not modelled because the code has none. `create_map` takes no distance, and line 160 calls it with three arguments, which raises `TypeError`. `update_map` is connected to no event. `MapQuery.CheckReferencePoint` therefore ends at the region check: its `InsideRegion` outcome is the point where the code would raise.
- `update_map`'s messages and map are not modelled. In the warning and no-point branches it calls `create_map()`, which shows no spots, even though the no-point message says all spots are shown. Its inputs are modelled as strings: their type is not fixed anywhere, since the function is not wired to the UI.
- The Gradio layout and CSS, folium map and marker rendering, popup HTML, Google Maps links and `app.launch` are presentation and are left out.
- Reading `data.json` is I/O: the model starts from the decoded JSON array, taken as a sequence of values. That the top level is an array rests on the harvester always writing one.
- Writing `data.json` is I/O: `Harvested.results` is what would be dumped. A failing write is printed and swallowed, and the file is truncated first; neither is modelled.
- The HTTP GET, `raise_for_status`, `response.json()` and `urllib.parse.quote` are library and network behaviour. They are abstracted as `fetch`, whose outcome also says which `except` clause catches the failure. With recent versions of `requests`, a decode failure is also a `RequestException`, so the first clause would catch it.
- `fetch` is assumed to always return, and to fail only in the two ways the code catches (`RequestException` and `JSONDecodeError`). The code sets no request timeout, so a lookup that never gets an answer hangs the run. Any other exception escapes `query_fishing_spot` and aborts `main` before `data.json` is written. The promises of `Harvester.CollectResults` and `Harvester.RunHarvest`, one outcome per identifier and no failure stopping the loop, hold only under this assumption.
- `fs` models only a missing identifier file (`FileNotFoundError`, the one error caught around the reads). Other open or decode errors, such as `PermissionError`, `IsADirectoryError` and `UnicodeDecodeError`, escape and abort `main`; they are not modelled.
- Python's `float` grammar (exponents, underscores, `inf`, `nan`) is abstracted as `parse`. A JSON number converts to itself, with no rounding and no NaN or infinities.
- Set iteration order is left unspecified (`Deduplicate` picks elements with `:|`).
- Progress output (`print`) and the `enumerate(..., 10)` counter only affect the console.
- The module-level `load_fishing_spots()` call and `total_spots` (app.py:171-172) only feed the UI header.
- Harvester.RunHarvest: "no query is made when a file is missing" shows only in the outcome's shape (`MissingInput` carries no results). The lookup is a function with no call log, so the model has no record of calls to state it against.
