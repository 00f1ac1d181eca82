# Prediction API handlers

A model of the HTTP layer of the time-series prediction service
(`prediction_api/views.py`). The service keeps one JSON metadata record per
trained model in `metadata/<model_id>`. It keeps the trained network in
`models/<model_id>.h5` and the input series in `data/`. Its endpoints:

- list the models, optionally for one target series (`GET /models`);
- create and train a model (`POST /models`);
- show a model's record (`GET /models/<id>`);
- delete a model (`DELETE /models/<id>`);
- return its forecast, its anomalies (the time points with the largest
  prediction error) or the feature columns most correlated with the target.

The three directories are the fields of the class `Views.Store`: a map from
metadata file name to contents, and the sets of file names in `models/` and
`data/`. Every handler is a member of `Store`:

- the handlers that change files (`CreateNewModel`, `DeleteModel`) are
  methods that reassign those fields;
- the read-only handlers are functions that read them, or methods where the
  source works by loops and in-place updates (`ListModels`,
  `GetModelAnomalies`).

The analytics engine (module `models`: training, forecasts, residuals and
correlations) is not part of this model. What it gives back reaches the
handlers as a parameter: a returned value, or an exception (`Training.TrainingFailed`,
`Engine.Raised`). Nothing in the handlers catches such an exception, so it
becomes a 500. A handler's contract holds for every value the engine might
return and for its failure.

The request-shaping logic is modelled with Python's own semantics:

- `int()` on a query parameter: the whitespace `int()` skips (`str.isspace`
  without the ASCII separators U+001C to U+001F), a sign, digits with single
  `_` separators;
- `lower()` for the `only_timeseries` flag;
- the slice `[:count]`, including negative counts;
- the stable `list.sort(key=abs error, reverse=True)`, here an in-place
  insertion sort on an array, proved equal to the one stable descending
  ranking;
- `zip` truncating to the shorter list;
- `glob` skipping dot-files;
- `sorted` on names by code point;
- `os.path.splitext`.

Modules:

| file | module | what it holds |
|---|---|---|
| options.dfy | `Options` | `Option` |
| json.dfy | `JsonValues` | JSON documents, a metadata file's contents |
| pyslice.dfy | `PySlice` | `s[:count]` |
| pytext.dfy | `PyText` | `int(s)`, `str(n)`, `s.lower()` |
| query_params.dfy | `QueryParams` | the `count` and `only_timeseries` parameters |
| filenames.dfy | `FileNames` | sorted listings, `glob` visibility, file stems |
| listing.dfy | `Listing` | the model listing loop |
| model_ids.dfy | `ModelIds` | the fresh-id loop |
| anomalies.dfy | `Anomalies` | anomaly ranking and truncation |
| correlations.dfy | `Correlations` | correlation filtering and truncation |
| views.dfy | `Views` | responses, request validation, the `Store` class and its handlers |

Notes on what the code does, which the model follows:

- A new model id is checked for uniqueness only against the names of the
  metadata files (`views.py:92-98`). A leftover `models/<id>.h5` does not
  block the id.
- An exception from training is not caught. It becomes a 500, and no
  metadata record is written (`views.py:110-119`).
- The "time series only" filter is the heuristic "no underscore in the
  column name" (`views.py:221`).
- A JSON request body that is not an object, such as a list, makes
  `.get` raise. The request fails with a 500, not a 400 (`views.py:61`).

## Model

| member | source | states |
|---|---|---|
| PySlice.Take | prediction_api/views.py:183 | `s[:count]` is a prefix of `s`: `min(count, n)` long for a non-negative count, `max(0, n + count)` for a negative one |
| PySlice.TakeNegative | prediction_api/views.py:183 | a negative count cuts exactly the last `-count` elements |
| PyText.LowerAscii | prediction_api/views.py:209 | `lower()` keeps the length and lower-cases each ASCII letter, leaving every other character alone |
| PyText.ParseInt | prediction_api/views.py:170 | `int(s)` in base 10, or failure where Python raises `ValueError`: surrounding whitespace, one optional sign, then digits with single underscores between them (partners `ParseIntAcceptsOnlyNumbers`, `ParseIntShow`) |
| PyText.ParseIntRefusesSeparators | prediction_api/views.py:170-172 | `int()` refuses a number next to U+001C or U+001F, which `str.isspace` counts as whitespace, and skips a tab and a newline |
| PyText.ParseIntAcceptsOnlyNumbers | prediction_api/views.py:170 | whatever `int()` accepts consists of whitespace, signs, digits and underscores, and has at least one digit |
| PyText.ParseIntShow | prediction_api/views.py:170 | `int(str(n)) == n` for every integer `n` |
| QueryParams.ParseCount | prediction_api/views.py:167-172 | an absent count stays absent; a present one is a value exactly when `int()` accepts it, and is otherwise rejected with "Could not parse count" |
| QueryParams.ParseCountShow | prediction_api/views.py:196-203 | every printed integer is accepted as that count |
| QueryParams.ParseOnlyTimeseries | prediction_api/views.py:205-212 | an absent flag is false; a rejected flag gets "Only true or false accepted for only_timeseries" |
| QueryParams.OnlyTimeseriesIgnoresCase | prediction_api/views.py:209-212 | the flag is true exactly when it spells "true" in any letter case, false exactly when it spells "false", and rejected exactly when it spells neither |
| FileNames.BelowTotal | prediction_api/views.py:23 | `sorted` compares names by a total order (with `BelowReflexive`, `BelowAntisymmetric`, `BelowTransitive`) |
| FileNames.BelowTransitive | prediction_api/views.py:23 | the name order is transitive |
| FileNames.BelowAntisymmetric | prediction_api/views.py:23 | two names each at most the other are equal |
| FileNames.SortedOf | prediction_api/views.py:23 | the sorted listing is strictly increasing and lists exactly the files |
| FileNames.SortedUnique | prediction_api/views.py:23 | two strictly increasing listings of the same names are equal, so the sorted listing is determined by the set of files |
| FileNames.SortedNames | prediction_api/views.py:23 | the selection loop produces the sorted listing of the names |
| FileNames.LastDot | prediction_api/views.py:75 | finds the last `.` of a name, or none |
| FileNames.StemOfDataFile | prediction_api/views.py:74-77 | the stem of `data/<id>.<ext>` is `<id>`, so a series file's id is found by target validation |
| FileNames.StemWithoutDot | prediction_api/views.py:75 | a name without a dot is its own stem |
| FileNames.Stem | prediction_api/views.py:75 | `os.path.splitext(name)[0]`: the name cut at its last dot, unless that dot is preceded only by dots (partners `StemOfDataFile`, `StemWithoutDot`, `LastDot`) |
| FileNames.VisibleNames | prediction_api/views.py:23 | the names `glob('dir/*')` reports: exactly the non-empty names not starting with `.` |
| FileNames.SeriesIds | prediction_api/views.py:74-76 | the ids of the time series: the stems of the visible data files, so `<id>.<ext>` yields `<id>` (partner `StemOfDataFile`) |
| Listing.StepAsWritten | prediction_api/views.py:25-44 | one pass of the loop as written: an unreadable file or a record without both keys is skipped; a key test on a number, boolean or null, or indexing a string or list that holds both keys, raises; otherwise the summary is emitted when the target matches (partners `AsWrittenFails`, `NewRecordIsListed`) |
| Listing.ListFilesAsWritten | prediction_api/views.py:24-44 | the loop over the sorted file names returns exactly the as-written listing: the summaries in file order, or failure as soon as some file's key tests raise |
| Listing.Admit | prediction_api/views.py:25-44 | the corrected pass: a document that is not an object is skipped like an unreadable one; otherwise as the loop as written (partners `ListedMembers`, `NonObjectsAreSkipped`) |
| Listing.ListFiles | prediction_api/views.py:24-44 | the corrected loop over the sorted file names (run by no handler) returns exactly the corrected listing of those files |
| Listing.Listed | prediction_api/views.py:24-44 | the listing has at most one summary per metadata file |
| Listing.ListedAsWritten | prediction_api/views.py:24-44 | the listing loop as written; when it gets through, at most one summary per file |
| Listing.ListedMembers | prediction_api/views.py:33-44 | a summary is listed exactly when some metadata file is a record with both keys and the requested target |
| Listing.ListedAppend | prediction_api/views.py:24-44 | the listing keeps file order: listing two runs of files lists each in turn |
| Listing.ListedForTarget | prediction_api/views.py:37-38 | the listing for a target is the full listing with other targets' entries removed, order kept |
| Listing.SkippedFileIsInvisible | prediction_api/views.py:25-35 | a metadata file that is unreadable or lacks a key can be removed without changing the listing |
| Listing.NonObjectsAreSkipped | prediction_api/views.py:33-35 | a metadata document that is not a JSON object can be removed without changing the (corrected) listing |
| Listing.AsWrittenAgrees | prediction_api/views.py:24-44 | wherever the loop as written gets through, it lists what the corrected loop lists |
| Listing.AsWrittenFails | prediction_api/views.py:33-42 | the loop as written fails exactly when some file crashes its key tests |
| Listing.NonObjectRecordFailsListing | prediction_api/views.py:33 | a file holding `42` beside a valid record makes the listing as written fail, where the corrected listing returns the valid record |
| ModelIds.FreshModelId | prediction_api/views.py:91-98 | the drawn id names no existing metadata file and is the first such draw |
| Anomalies.Zip | prediction_api/views.py:180 | pairs times and errors position by position, as many pairs as the shorter list |
| Anomalies.Times | prediction_api/views.py:185 | the first components, in order |
| Anomalies.Errors | prediction_api/views.py:186 | the second components, in order |
| Anomalies.ZipUnzip | prediction_api/views.py:180-186 | unzipping then zipping gives back the pairs |
| Anomalies.StableSort | prediction_api/views.py:181 | the reference stable ranking by descending absolute error, as long as its input (partners `StableSortPermutes`, `StableSortRanked`, `StableSortStable`, `StableSortIsTheStableRanking`) |
| Anomalies.StableSortPermutes | prediction_api/views.py:181 | the sort is a permutation (equal multisets) |
| Anomalies.StableSortRanked | prediction_api/views.py:181 | the sort orders by non-increasing absolute error |
| Anomalies.StableSortStable | prediction_api/views.py:181 | for every magnitude, the pairs with that absolute error keep their input order |
| Anomalies.RankedGroupsDetermine | prediction_api/views.py:181 | two ranked lists with the same equal-magnitude groups are the same list |
| Anomalies.StableSortIsTheStableRanking | prediction_api/views.py:181 | any ranked list with the input's equal-magnitude groups is the sort's result, so it is the list Python's stable sort produces |
| Anomalies.SortByMagnitude | prediction_api/views.py:181 | the in-place sort of the array leaves exactly the stable ranking of its old contents |
| Anomalies.InsertAt | prediction_api/views.py:181 | one insertion step puts `a[i]` into the ranked prefix and leaves the rest of the array alone |
| Anomalies.Rank | prediction_api/views.py:180-188 | the two lists the anomalies handler returns: the stable ranking of the zipped pairs, cut by the count when one is given, then unzipped (partners `RankLengths`, `RankIsRankedPrefix`, `RankAnomalies`) |
| Anomalies.RankLengths | prediction_api/views.py:180-188 | the two returned lists have equal length: all zipped pairs without a count, `min(count, n)` or `max(0, n + count)` with one |
| Anomalies.RankIsRankedPrefix | prediction_api/views.py:180-188 | the returned pairs are a prefix of the stable ranking: ranked, drawn from the input without repetition, and per magnitude a prefix of the input's group |
| Anomalies.RankAnomalies | prediction_api/views.py:178-188 | zip, in-place sort, cut and unzip return the specified ranking |
| Correlations.KeepSeries | prediction_api/views.py:219-221 | the filter keeps no more entries than it is given, and only time-series columns |
| Correlations.Columns | prediction_api/views.py:223 | the column names, position by position |
| Correlations.KeepSeriesMembers | prediction_api/views.py:221 | an entry is kept exactly when it is in the ranking and its column has no underscore |
| Correlations.KeepSeriesAppend | prediction_api/views.py:221 | the filter keeps ranking order |
| Correlations.KeepSeriesIdempotent | prediction_api/views.py:219-221 | filtering twice is filtering once |
| Correlations.Select | prediction_api/views.py:219-224 | the column names of the ranking, filtered to time series when asked, cut by `[:count]` (partner `SelectIsRankingPrefix`) |
| Correlations.SelectIsRankingPrefix | prediction_api/views.py:218-224 | the returned columns are a prefix of the (filtered) ranking's names, at most `count` of them for a non-negative count, each a column of the ranking, and time series only when asked |
| Views.WithDefault | prediction_api/views.py:82-89 | an absent or null hyperparameter takes its default, any other value is kept (stated through `ValidateCreate`) |
| Views.MetadataRecord | prediction_api/views.py:100-115 | the record written for a new model: its id, target, creation time, the four hyperparameters and the two training counts (partner `NewRecordIsListed`) |
| Views.NewRecordStep | prediction_api/views.py:33-44 | one pass of the listing, as written or corrected, with or without the record's own target as filter, emits a record written by model creation under its id and target |
| Views.NewRecordIsListed | prediction_api/views.py:18-46 | once a record is written under an id not starting with `.`, the sorted listing contains its summary, unfiltered and filtered by its target, and so does the listing as written whenever it gets through; an id starting with `.` is hidden by `glob` |
| Views.ValidateCreate | prediction_api/views.py:51-89 | a creation request is accepted exactly when its body is a JSON object whose `target_uuid` is the stem of a data file; rejections are 400s, or a 500 for a non-object document; each absent or null hyperparameter takes its default (100, 10, 10, 10), and the others are kept |
| Views.Store.CheckFiles | prediction_api/views.py:11-14 | `check_files`: true exactly when both `metadata/<id>` and `models/<id>.h5` exist; the 404 clauses of the three handlers that call it, and `DeleteModel`, state what it decides |
| Views.Store.ListModels | prediction_api/views.py:18-46 | `GET /models` answers 500 exactly when some visible metadata file's key tests raise; otherwise 200 with the summaries of the visible metadata files in sorted name order, filtered by target |
| Views.Store.CreateNewModel | prediction_api/views.py:50-121 | a rejected request or a failed training changes no file; otherwise exactly one metadata record is added under a fresh drawn id, holding the request's target, hyperparameters, creation time and training counts, and `GET /models/<id>` then returns it |
| Views.Store.GetModelInfo | prediction_api/views.py:125-133 | 404 exactly when no metadata file exists; 200 with the stored document exactly when it parses; otherwise 500 |
| Views.Store.DeleteModel | prediction_api/views.py:137-144 | removes the metadata and network files of the id, whichever exist, and nothing else; always 200 "Model deleted successfully"; afterwards the files check fails and the record is not found |
| Views.Store.GetModelForecast | prediction_api/views.py:149-158 | 404 "Metadata or model file not found" exactly when either file is missing; otherwise 200 with the forecast exactly when the record parses and `models.get_forecast` returns, and 500 when either fails |
| Views.Store.GetModelAnomalies | prediction_api/views.py:163-188 | the missing-files check comes first, then the count (400), then the record and `models.get_anomalies` (500 when either fails); a 200 carries the ranked, truncated anomaly lists |
| Views.Store.GetHighestCorrelations | prediction_api/views.py:192-224 | the missing-files check comes first, then the count, then the flag (each a 400 with its own message), then the record and `models.get_correlations` (500 when either fails); a 200 carries the selected columns, 20 by default |

## Left out

- The analytics engine (`models.train_model`, `get_forecast`, `get_anomalies`, `get_correlations`) is not part of this model. What it returns, or that it raised, is a parameter. Training's own write of `models/<id>.h5` is not modelled, so `CreateNewModel` leaves `modelFiles` unchanged.
- Flask routing, the JSON encoding of responses and the reading of files are not modelled. A metadata file is either a parsed document or `Unreadable`, which covers any read or parse error.
- The wall clock (`datetime.now()`) is the parameter `created` of `CreateNewModel`.
- `uuid.uuid4()` is the sequence `draws` of ids the generator hands out. `ModelIds.FreshModelId` requires that some draw is fresh. The source loops until one is, and never returns otherwise.
- Views.Store.CreateNewModel: the metadata record is added to the store in one step. The write of a partly written file is not modelled.
- Directories inside `metadata/` or `models/`, and model ids containing `/` or `..`, are not modelled. Every entry of the store is a plain file.
- Concurrent requests are not modelled. Each handler runs alone against the store.
- Anomalies.Anomaly: time points and prediction errors are integers, not floats. The handler only carries the times through and only compares the absolute values of the errors, and the model does not depend on floating-point arithmetic.
- PyText.ParseInt: only ASCII digits are accepted. Python's `int()` also reads other Unicode decimal digits and refuses literals longer than 4300 digits.
- PyText.LowerAscii: only ASCII letters are lowered. No non-ASCII character lowers to a letter of "true" or "false", so the flag's outcome is the same as with Python's full `lower()`.
- The `print` diagnostics of the handlers are not modelled.

## Findings

| source | as written | input that shows it | evidently intended | confidence | as-written member | corrected member |
|---|---|---|---|---|---|---|
| prediction_api/views.py:33 | the `in` test for the `model_id` key raises `TypeError` for a metadata document that is a number, boolean or null. Indexing a string or list document that holds both keys also fails. Nothing catches this, so `GET /models` fails with 500 | `metadata/a` holding `42` next to a valid record `metadata/b` (`Listing.NonObjectRecordFailsListing`) | skip such a file like any other invalid one ("Invalid file found") and list the rest (`Listing.NonObjectsAreSkipped`). `Views.Store.ListModels` follows the code: 500 where the loop as written fails, and otherwise the corrected listing, which then agrees with it (`Listing.AsWrittenAgrees`) | not executed | Listing.ListedAsWritten | Listing.Listed |
