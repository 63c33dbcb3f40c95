# housing-ocr: a verified model of the document pipeline's bookkeeping

housing-ocr turns photographs and PDFs of Japanese real-estate flyers into
structured property records. An OCR model reads each document, and a
language model extracts the property fields from the text. This project
models the bookkeeping around those two calls, in each of the three code
generations of the repository:

- **FastAPI generation.**
  - The SQLite ledger `Database` (`ledger.dfy`).
  - The per-document step of `DocumentProcessor` (`processor.dfy`).
  - The LLM adapter: Japanese-era years, JSON selection, model fallback and cooldown (`llm.dfy`).
  - The page assembly of the OCR client (`ocr_client.dfy`).
  - The upload, cleanup and reset endpoints (`api.dfy`).
  - The model-list endpoints (`model_config.dfy`).
- **Older FastAPI files.**
  - `process_document` and one `process_queue` sweep (`legacy_processor.dfy`).
  - The filename-based upload and the station-duration endpoints (`legacy_api.dfy`).
- **Flask and thread generation (`src/housing_ocr`).**
  - The `Document` schema and stored names (`housing_db.dfy`).
  - The OCR failure classifier (`ocr_failure.dfy`).
  - The vLLM retry loop, PDF pages and property extraction (`housing_ocr.dfy`).
  - The priority task queue and its handlers (`housing_queue.dfy`).
  - The retry manager (`housing_retry.dfy`).
  - The Flask endpoints (`housing_app.dfy`).
- **Access control.**
  - Security headers, path-traversal filter, IP blacklist and rate limiter (`security.dfy`).
  - The GeoIP country allow-list (`geolocation.dfy`).

Shared helpers sit in `wrappers.dfy` (Option, Result), `text.dfy` (Python's
`strip`, ASCII `lower`, `find`, `rfind`, `PurePath.suffix`, digit runs and
`str(n)`), `json.dfy` (decoded JSON values and `dict.get`) and `sorting.dfy`
(key order, `ORDER BY` and `LIMIT`).

The repository's tables become maps keyed by their primary keys:

- SQL `SELECT`s are functions over the maps.
- Updates are methods of a class that owns the maps, each stating exactly which columns change.
- The queues are multisets of tasks.
- The blacklist, the suspicious counts and the rate-limiter lists are the maps the source mutates.

Everything outside the process comes in as a parameter:

- what the OCR server, the language model, `json.loads`, the GeoIP2 database or `process_document` answer;
- the MD5 and SHA-256 digests;
- the files present in the upload folder;
- the current time: a `now` parameter, or a clock read once per step where a loop reads it repeatedly.

A model's reply is given per position in the model list. Timestamps stored
by the ledger are natural numbers, taken in the order of the ISO text the
source stores.

## Model

| member | source | states |
|---|---|---|
| Ledger.PendingOrder | src/models.py:212-224 | the candidate rows are exactly the rows matching the `WHERE` clause, each once, sorted by favourite descending then upload time ascending |
| Ledger.PendingDocuments | src/models.py:212-224 | `get_pending_documents` returns at most ten distinct rows, each matching the pending-work condition |
| Ledger.PendingDocumentsOrdered | src/models.py:219 | any two selected rows come favourites first, and older upload first among equal favourite values |
| Ledger.PendingDocumentsComplete | src/models.py:215-219 | a row of pending work is left out only when ten rows were selected, each sorting no later than it |
| Ledger.TakeLeavesLater | src/models.py:219 | an element `LIMIT 10` leaves out of a sorted list sorts after all ten that are kept |
| Ledger.StatusRank | src/models.py:141-144 | the `CASE` rank is 1 for a finished LLM, 2 for pending work, 3 for work in progress and 4 otherwise |
| Ledger.AllDocuments | src/models.py:136-145 | `get_all_documents` lists every document exactly once, sorted by its `ORDER BY` key |
| Ledger.AllDocumentsOrder | src/models.py:140-144 | favourites come first; among equal favourites a lower status rank comes first; among equal rank a newer upload comes first |
| Ledger.DocumentByHash | src/models.py:293-310 | the lookup is `None` exactly when no row has the digest; otherwise it is the first row with it, in id order |
| Ledger.DocumentByFilename | src/models.py:118-134 | the lookup is `None` exactly when no row has the file name; otherwise it is the first row with it |
| Ledger.NextDisplayOrder | src/models.py:323-325 | a new location's order is 1 in an empty table; otherwise it is one more than the largest order, so it exceeds every existing one |
| Ledger.TravelTimesFor | src/models.py:366-381 | each joined row is for the station, agrees with the duration and location tables, and every location with a time appears, in display order |
| Ledger.JoinedTimes | src/models.py:370-376 | joining sorted distinct locations gives one row per location, in the same order, with its time, name and tag flag |
| Ledger.StationListDurations | src/models.py:429-444 | gathering fails exactly when some listed station is not an object, as `station.get` then raises |
| Ledger.StationName | src/models.py:435-440 | a looked-up station name is a non-blank string held under "name" |
| Ledger.StationListDurationsSound | src/models.py:429-444 | every gathered row belongs to a looked-up station name and agrees with the tables |
| Ledger.StationListDurationsComplete | src/models.py:429-444 | every station in the list is an object, and each contributes its block of rows in list order: for a non-blank string "name", every travel time of that name, in display order |
| Ledger.LastIndexOf | src/models.py:356-364 | the position found holds the id, and no later position does |
| Ledger.LastIndexOfDistinct | src/models.py:356-364 | in a list without repeats, the id at position i is given display order i + 1 |
| Ledger.Toggled | src/models.py:232 | the written value is 0 or 1, and it is 1 exactly when the old value was 0 |
| Ledger.ToggleTwice | src/models.py:226-241 | toggling twice restores a 0/1 favourite; any other value comes back as 1 |
| Ledger.Database.CreateDocument | src/models.py:87-97 | a new row under a fresh id, with both stages pending, no text, no properties, no model, retry 0 and favourite 0; nothing else changes |
| Ledger.Database.UpdateOcrStatus | src/models.py:162-176 | only `ocr_status` changes, plus `ocr_text` when text is given; a missing id changes nothing |
| Ledger.Database.UpdateLlmStatus | src/models.py:178-202 | `llm_status` and `extracted_model` are overwritten, and `properties` only when given; no other column changes |
| Ledger.Database.IncrementRetry | src/models.py:204-210 | `retry_count` grows by exactly one and nothing else changes |
| Ledger.Database.ToggleFavorite | src/models.py:226-241 | 0 becomes 1, anything else 0, and the new value is returned; a missing id returns 0 and changes nothing |
| Ledger.Database.DeleteDocument | src/models.py:243-255 | exactly that row is removed |
| Ledger.Database.ResetLlmStatus | src/models.py:257-264 | `llm_status` becomes pending and `properties` NULL; every other column is kept |
| Ledger.Database.ResetOcrStatus | src/models.py:266-273 | both stages pending, `ocr_text` and `properties` NULL; favourite, upload time, retries and model are kept |
| Ledger.Database.UpdateFileHash | src/models.py:284-291 | only `file_hash` changes |
| Ledger.Database.AddLocation | src/models.py:320-336 | a taken name is refused and changes nothing; otherwise a new location under a fresh id gets the next display order and tag flag 0 |
| Ledger.Database.DeleteLocation | src/models.py:338-345 | the location goes, with exactly the station durations that name it |
| Ledger.Database.ReorderLocations | src/models.py:356-364 | a listed location gets its last list position plus one as display order; every other location is unchanged |
| Ledger.Database.SetStationDuration | src/models.py:402-412 | an upsert on (station, location): that key holds the new duration, and the last write wins |
| Ledger.Database.DeleteStationDuration | src/models.py:414-421 | exactly that key is removed |
| Ledger.Database.DocStationDurations | src/models.py:423-447 | raises exactly when the row's station list holds a non-object; no rows for a missing document, NULL properties, or a missing or empty station list; otherwise exactly `StationListDurations` of the listed stations |
| Processor.ModelColumn | src/processor.py:113 | the popped tag becomes `extracted_model` when it is a string and NULL otherwise |
| Processor.DisplayFilename | src/processor.py:31-32 | the original name when it is non-empty, else the stored name, else "unknown" |
| Processor.Unstuck | src/processor.py:46-54 | after the first resets, no stage is processing, and the retries, favourite, text and properties are kept |
| Processor.Processed | src/processor.py:34-132 | the row one call leaves: the stuck-state resets, then the OCR stage when OCR is pending, else the LLM stage when it is due, with a raise counted as a retry |
| Processor.ProcessedSettles | src/processor.py:34-132 | no stage is left processing, and the step never writes "failed" itself |
| Processor.ProcessedRetry | src/processor.py:117-125 | the retry count grows by one exactly when an adapter raised; favourite, upload time, name and digest never change |
| Processor.ProcessedOcrStage | src/processor.py:56-89 | non-blank text is stored with OCR done; blank text or a raise leaves OCR pending; the LLM does not start in the same call |
| Processor.ProcessedLlmStage | src/processor.py:86-115 | blank stored text resets both stages with no call; a reply is stored without its tag and the tag becomes the model column; a raise leaves the stage pending |
| Processor.ProcessedIdle | src/processor.py:86-89 | when neither stage is due, only the stuck-state resets apply |
| Processor.AwaitedAdaptersRaise | src/processor.py:68-115 | as written both stages `await` a plain value, so any call raises after the adapter ran: no stage is newly done, text and properties are kept, and the retry count grows by one |
| Processor.DocumentProcessor.ProcessDocument | src/processor.py:34-132 | a missing document is left alone; the call raises, writing nothing, exactly when the entry read raises on the row's stations; otherwise only its row changes, and it becomes `Processed` of its row at entry |
| Processor.DocumentProcessor.OcrPath | src/processor.py:56-84 | the OCR branch leaves the row as `Processed` prescribes |
| Processor.DocumentProcessor.LlmPath | src/processor.py:86-115 | the LLM branch leaves the row as `Processed` prescribes |
| Processor.DocumentProcessor.ResetStuck | src/processor.py:46-54 | the stuck-state resets write `Unstuck` of the row |
| Processor.DocumentProcessor.OcrStage | src/processor.py:56-84 | OCR done with non-blank text; the row is unchanged after blank text or a raise, and a raise is reported |
| Processor.DocumentProcessor.LlmStage | src/processor.py:90-115 | blank text resets both stages; a reply is stored with the stage done; a raise leaves the stage processing for the handler |
| Processor.DocumentProcessor.Recover | src/processor.py:117-132 | one more retry, then the stage left processing goes back to pending, OCR first |
| LegacyProcessor.LegacyProcessed | processor.py:30-104 | the row one call leaves: OCR on a pending snapshot, else the LLM on a done OCR with the LLM pending or processing, a raise counted as a retry |
| LegacyProcessor.LegacyProcessedRetry | processor.py:76-88 | the retry count grows by one exactly when an adapter raised; no stage is newly left processing and "failed" is never written |
| LegacyProcessor.LegacyOcrStage | processor.py:39-52 | OCR runs only on a pending snapshot; its text is stored with OCR done, or OCR stays pending; the LLM columns are kept |
| LegacyProcessor.LegacyLlmStage | processor.py:54-74 | a stale processing LLM is run again; blank text resets both stages; a reply is stored without its tag |
| LegacyProcessor.LegacyStaleOcrStuck | processor.py:39 | a stale OCR "processing" row is left exactly as it was, while the newer processor always clears it |
| LegacyProcessor.LegacyAgreesWithProcessor | processor.py:30-88 | with no stage processing and the LLM not failed, both generations leave the same row; a failed LLM is retried only by the newer one |
| LegacyProcessor.LegacyDocumentProcessor.ProcessDocument | processor.py:30-88 | a missing document is left alone; the call raises, writing nothing, exactly when the entry read raises on the row's stations; otherwise its row becomes `LegacyProcessed` of its row at entry |
| LegacyProcessor.LegacyDocumentProcessor.OcrStep | processor.py:39-52 | the OCR branch, with its handler, writes what `LegacyProcessed` prescribes |
| LegacyProcessor.LegacyDocumentProcessor.LlmStep | processor.py:54-74 | the LLM branch, with its handler, writes what `LegacyProcessed` prescribes |
| LegacyProcessor.LegacyDocumentProcessor.Recover | processor.py:76-88 | one more retry, then the stage left processing goes back to pending, OCR first |
| LegacyProcessor.LegacyDocumentProcessor.Sweep | processor.py:92-104 | the pending list is read once; every listed row whose read does not raise is processed from its state before the pass, and every other row is unchanged |
| LegacyProcessor.LegacyDocumentProcessor.ProcessEach | processor.py:97-104 | each listed id is processed once, in order, whatever happened to the others |
| LegacyProcessor.SweptShape | processor.py:97-104 | the sweep keeps the set of rows and changes exactly the listed rows whose read does not raise |
| LegacyProcessor.SweptStep | processor.py:97-99 | handling one more unlisted id changes exactly its row |
| Llm.EraSearch | src/llm.py:30 | the leftmost position at or after the start where the era name is followed by a digit, or none |
| Llm.ConvertEra | src/llm.py:24-36 | the result is the input unchanged or the decimal text of a year |
| Llm.ConvertEraNoMatch | src/llm.py:26-36 | text in which no era name is followed by a digit comes back unchanged |
| Llm.ConvertEraFirstMatch | src/llm.py:29-34 | the leftmost match of the first era in pattern order decides the year, `base + n - 1` |
| Llm.ConvertEraYear | src/llm.py:15-34 | an era name, year number n and a non-digit continuation convert to base + n - 1 when no earlier era matches |
| Llm.ConvertEraDigits | src/llm.py:15-34 | the same for any digit run, its leading zeros included |
| Llm.EraThenDigits | src/llm.py:16-20 | an era name followed by digits matches at the start with the digits' value |
| Llm.NoEraInDigits | src/llm.py:15-21 | a string of digits holds no era name |
| Llm.ConvertEraIdempotent | src/llm.py:24-36 | converting a converted year again changes nothing |
| Llm.ConvertEraReiwa1 | src/llm.py:16 | 令和1年 converts to 2019 |
| Llm.ConvertEraHeisei31 | src/llm.py:17 | 平成31年 converts to 2019 |
| Llm.ConvertEraMeiji1 | src/llm.py:20 | 明治1年 converts to 1867, as the pattern's base is 1867 and not the 1868 of `ERA_START_YEARS` |
| Llm.ConvertEraInProperties | src/llm.py:39-45 | only a truthy `build_year` is rewritten, to the conversion of its `str()`; every other key is untouched |
| Llm.BuildYearNumber | src/llm.py:41-44 | a Western year given as a number becomes the same year as text |
| Llm.ExtractJson | src/llm.py:60-66 | no '{' with a later '}' gives the error; otherwise the result is the parse of the first-'{'-to-last-'}' slice |
| Llm.TagCounts | src/llm.py:185-197 | the model-name tag counts as a meaningful value itself, so two meaningful fields of the reply reach the threshold of three |
| Llm.Attempt | src/llm.py:164-220 | one model call: content whose JSON part parses and, tagged and era-converted, has three meaningful values; an HTTP error or other failure yields nothing |
| Llm.AttemptAccepts | src/llm.py:181-205 | a reply is accepted exactly when its JSON part parses and, tagged and era-converted, has at least three meaningful values; the result carries the model's name |
| Llm.Fallback | src/llm.py:156-222 | every called position lies in the list, and a winner is the last one called; the cooldown check at position i and a 429 stamp there read the clock at their own steps |
| Llm.FallbackUnfold | src/llm.py:156-220 | one loop step: a model cooling at that step's clock reading is skipped, an accepted reply wins, and a rejected one records its 429 at the stamp's reading and moves on |
| Llm.FallbackWon | src/llm.py:198-205 | the winner's properties are the accepted reply of the winning model |
| Llm.FallbackWinner | src/llm.py:185-205 | the winning properties name the winning model and pass the threshold |
| Llm.FallbackInOrder | src/llm.py:156 | models are called in list order, each position at most once |
| Llm.FallbackRejected | src/llm.py:198-220 | every call except the winning last one was rejected |
| Llm.RecordKeepsCooling | src/llm.py:206-211 | recording a 429 no earlier than a model's stored time never ends a cooldown at a given moment |
| Llm.FallbackSkipsCooling | src/llm.py:157-162 | with a non-decreasing clock, a model whose stored 429 time is still under 60 seconds old when the loop reaches its position j is not called there |
| Llm.FallbackSkipsAfter429 | src/llm.py:157-162 | after a 429 at position i, a later position j holding the same model is skipped when the loop reaches j under 60 seconds after the stamp |
| Llm.FallbackFindsAcceptable | src/llm.py:156-205 | the loop does not give up while an acceptable model remains: some model at or before it wins |
| Llm.FallbackTimes | src/llm.py:206-211 | every model that answered 429 holds the clock reading of its last 429's stamp, and every other entry is kept |
| Llm.RemoveFirst | src/llm.py:227 | `list.remove` drops exactly one occurrence |
| Llm.RemoveFirstAt | src/llm.py:227 | the list is cut at the first index holding the name |
| Llm.LlmExtractor.ExtractProperties | src/llm.py:68-222 | an empty list fails before any call; otherwise the calls, the new 429 times (read from the clock at each stamp) and the result are those of the fallback loop, and the call fails when no model wins |
| Llm.LlmExtractor.RemoveFailedModel | src/llm.py:224-230 | the first occurrence is removed and the callback gets the new list; an absent name changes nothing and calls nothing |
| Json.JsonSlice | src/llm.py:61-65 | `None` exactly when no '{' has a later '}'; otherwise the slice from the first '{' to the last '}' inclusive |
| OcrClient.Labelled | src/ocr.py:59-62 | the labelled positions are pages of the PDF |
| OcrClient.SectionsLabelled | src/ocr.py:58-62 | section k is the k-th page with text, under its original 1-based page number, so dropped pages leave gaps |
| OcrClient.Sections | src/ocr.py:58-62 | one "[Page n]" section per page with non-empty text, numbered by its position in the PDF, in page order |
| OcrClient.PdfText | src/ocr.py:48-66 | an empty PDF is an error, a raising page request fails the call, otherwise the sections joined by blank lines |
| OcrClient.SectionsComplete | src/ocr.py:61 | only pages with empty text are left out |
| OcrClient.NoTextNoSections | src/ocr.py:58-63 | a PDF whose pages are all empty yields "" |
| OcrClient.ExtractText | src/ocr.py:48-71 | a path ending in ".pdf" in any case gets the page assembly, or an error for an empty PDF; any other path gets the single-image result unchanged |
| Api.Unfavorited | src/app.py:301 | exactly the listed documents whose favourite is not 1, in listing order |
| Api.UnfavoritedListing | src/app.py:300-301 | the filtered listing holds each non-favourite once |
| Api.CleanupDone | src/app.py:295-309 | deleting the non-favourites leaves exactly the favourites, and removes exactly their files |
| Api.Cleanup | src/app.py:295-309 | fails with nothing deleted exactly when some row makes the listing raise; otherwise every non-favourite is deleted with its file, favourites are kept, and the count deleted is returned |
| Api.DeleteAll | src/app.py:303-307 | the loop deletes each listed row and its file, and counts them |
| Api.InsertedDigestFound | src/app.py:87-109 | once a new upload is stored with digest h, the next upload of the same bytes is reported against it |
| Api.App.Upload | src/app.py:75-130 | bytes already stored are reported against the first row with that digest and nothing is written, and the request fails, also writing nothing, exactly when reading that row raises; otherwise the file is stored under digest plus original suffix and a new row records the digest |
| Api.App.Store | src/app.py:100-109 | the new-file branch writes the file and one new row with the digest |
| Api.App.UpdateDocument | src/app.py:180-183 | the properties are stored, the LLM stage is done and the model column is NULL |
| Api.App.RetryLlm | src/app.py:205-212 | a missing id gives 404, a row whose read raises gives a 500, and both change nothing; otherwise the LLM reset |
| Api.App.RetryOcr | src/app.py:215-222 | a missing id gives 404, a row whose read raises gives a 500, and both change nothing; otherwise the OCR reset |
| Api.App.CleanupDocuments | src/app.py:295-309 | a 500 with nothing deleted exactly when some row makes the listing raise; otherwise exactly the favourites remain, the others' files are gone, and their number is returned |
| ModelConfig.AddedModels | src/app.py:230-251 | a blank or already listed name is refused; otherwise the stripped name is appended and the existing order kept |
| ModelConfig.RemainingModels | src/app.py:254-276 | a blank name gives 400, a missing list or unlisted name 404, the last model 400; otherwise exactly one entry is removed |
| ModelConfig.AddKeepsNoRepeats | src/app.py:241-245 | adding to a list without repeats keeps it without repeats |
| ModelConfig.DeleteKeepsOrder | src/app.py:270 | deleting keeps the order of the other models |
| ModelConfig.AddThenDelete | src/app.py:230-276 | deleting a model just added to a non-empty list restores the list |
| ModelConfig.ModelSettings.AddModel | app.py:160-181 | on success the configuration and the extractor both hold the new list; on refusal nothing changes |
| ModelConfig.ModelSettings.DeleteModel | app.py:184-206 | on success both hold the shortened list; on refusal nothing changes |
| ModelConfig.ModelSettings.ReorderModels | src/app.py:279-292 | an empty list gives 400 and changes nothing; otherwise both lists become the given one, as given |
| LegacyApi.CheckedEntry | app.py:349-358 | a blank name, then a missing location, then a missing duration is refused; an accepted entry gives the stripped name |
| LegacyApi.Accepted | app.py:372-379 | an entry writes exactly when it passes the checks, under its key |
| LegacyApi.Writes | app.py:371-379 | one write or skip per entry, in order |
| LegacyApi.LastWrite | app.py:371-379 | the last entry writing a key, or none |
| LegacyApi.UpsertedLastWins | app.py:371-379 | each key holds the duration of its last write; an unwritten key keeps its old state |
| LegacyApi.BatchLastWins | app.py:364-381 | for each key the last accepted entry naming it wins, and refused entries leave no trace |
| LegacyApi.BatchSkipsRefused | app.py:376-377 | a refused entry leaves the table as it was |
| LegacyApi.InsertedNameFound | app.py:76-90 | once a row is made under a name, a later upload of that name finds it |
| LegacyApi.LegacyApp.Upload | app.py:68-93 | a duplicate exactly when the file exists and a row has that name; otherwise the file is overwritten and a new row is made, whatever its bytes |
| LegacyApi.LegacyApp.CleanupDocuments | app.py:225-239 | a 500 with nothing deleted exactly when some row makes the listing raise; otherwise exactly the favourites remain, the others' files are gone, and their number is returned |
| LegacyApi.LegacyApp.SetStationDuration | app.py:347-361 | a refused entry changes nothing; an accepted one is upserted under its stripped name |
| LegacyApi.LegacyApp.SetStationDurationsBatch | app.py:364-381 | a body that is not a list gives 400; otherwise entries are upserted in order and refused ones skipped |
| LegacyApi.LegacyApp.DeleteStationDuration | app.py:384-395 | a blank name or a missing location is refused; otherwise exactly that key is removed |
| HousingDb.Unset | src/housing_ocr/database.py:50-80 | a new row's property columns are all NULL |
| HousingDb.CopiedColumns | src/housing_ocr/queue_manager.py:189-219 | every property column takes `info.get(field)`, NULL when absent, and other keys are ignored |
| HousingDb.NewDocument | src/housing_ocr/database.py:24-48 | a new row has status, OCR and LLM pending, both priorities 5, no retries, no text or errors, and the upload's names |
| HousingDb.GenerateHashedFilename | src/housing_ocr/database.py:95-98 | the first 16 characters of the hash, then the original suffix lower-cased |
| HousingDb.SameStoredName | src/housing_ocr/database.py:95-98 | two uploads get the same name exactly when their hash prefixes agree and their suffixes agree up to case |
| HousingDb.StoredNameKeepsSuffix | src/housing_ocr/database.py:95-98 | with a hex digest the stored name's suffix is the original's, lower-cased |
| HousingDb.DocumentTable.Insert | src/housing_ocr/database.py:26 | a taken stored name violates the unique constraint and nothing is added; otherwise the row gets the next id |
| HousingDb.DocumentTable.Put | src/housing_ocr/queue_manager.py:125 | a commit replaces exactly that row |
| OcrFailure.IsOcrFailedAsWritten | src/housing_ocr/queue_manager.py:371-384 | `is_ocr_failed` as written: an empty text, or a keyword unchanged inside the lower-cased text |
| OcrFailure.IsOcrFailed | src/housing_ocr/retry_manager.py:26-39 | the corrected test: an empty text, or a keyword in any letter case |
| OcrFailure.AsWrittenMisses | src/housing_ocr/queue_manager.py:371-384 | as written, a non-empty text without "无", "超" and "t" in either case is never a failure |
| OcrFailure.AsWrittenMissesErrorReply | src/housing_ocr/ocr.py:111-112 | as written, the OCR client's request-error reply "OCR API错误: " and a detail without "无法连接", "超时" and "timeout" passes as text, while the corrected test fails it |
| OcrFailure.ErrorMarkerIsFailure | src/housing_ocr/retry_manager.py:26-39 | with lower-cased keywords every error reply of the OCR client is a failure |
| OcrFailure.UnknownErrorReply | src/housing_ocr/ocr.py:114 | the unknown-error reply is a failure by the corrected test and a success by the written one; the loop never reaches that line (`HousingOcr.ImageNeverFallsThrough`) |
| OcrFailure.AsWrittenWithinCorrected | src/housing_ocr/queue_manager.py:371-384 | every text the written test fails is failed by the corrected test too |
| OcrFailure.FailsOrdered | src/housing_ocr/retry_manager.py:26-39 | under either test an empty text is a failure, and the written test fails no more than the corrected one |
| OcrFailure.ErrorReplySplitsTests | src/housing_ocr/ocr.py:111-112 | a request-error reply without the three lower-case keywords is recognised text by the written test and a failure by the corrected one |
| HousingOcr.StopAt | src/housing_ocr/ocr.py:87-112 | the loop stops at the first request whose failure is not retried, or at the third |
| HousingOcr.ImageFrom | src/housing_ocr/ocr.py:87-114 | from attempt a on, the loop makes at least one more request and never passes three in all |
| HousingOcr.ImageStops | src/housing_ocr/ocr.py:87-112 | the first answer wins, connection errors and time-outs cost one request each, other errors end the loop at once |
| HousingOcr.ImageNeverFallsThrough | src/housing_ocr/ocr.py:87-114 | at most three requests, and the line after the loop is never reached |
| HousingOcr.ProcessImage | src/housing_ocr/ocr.py:66-114 | the loop's reply and request count are those of the retry policy |
| HousingOcr.PageSection | src/housing_ocr/ocr.py:125-133 | a page's section is its header and then its text, or "错误: " and the message when its request raised |
| HousingOcr.PdfText | src/housing_ocr/ocr.py:117-140 | a rendered PDF gives its page sections joined by blank lines; one that cannot be rendered gives "PDF处理错误: " and the message |
| HousingOcr.PdfSections | src/housing_ocr/ocr.py:121-136 | one section per page, numbered from 1, a failing page included |
| HousingOcr.ProcessPdf | src/housing_ocr/ocr.py:117-140 | the loop assembles the sections joined by blank lines |
| HousingOcr.RouteOf | src/housing_ocr/ocr.py:147-154 | ".pdf" is a PDF; ".jpg", ".jpeg" and ".png" are images, in any case; anything else is unsupported |
| HousingOcr.ProcessDocument | src/housing_ocr/ocr.py:143-154 | a missing file raises; otherwise the route picks the PDF or image path, and an unsupported suffix gives a message naming it |
| HousingOcr.ExtractPropertyInfo | src/housing_ocr/ocr.py:217-258 | no key means no request and no properties; any failure or unparsable reply gives none; otherwise the parse of the first-'{'-to-last-'}' part |
| HousingQueue.TaskLess | src/housing_ocr/queue_manager.py:19-23 | `__lt__`: a manual task comes before any other, otherwise the smaller priority first |
| HousingQueue.Rank | src/housing_ocr/queue_manager.py:19-23 | a manual task ranks 0 and any other 1 |
| HousingQueue.TaskLessIsKeyOrder | src/housing_ocr/queue_manager.py:19-23 | `__lt__` is the lexicographic order on (not manual, priority) |
| HousingQueue.TaskLessStrictOrder | src/housing_ocr/queue_manager.py:19-23 | `__lt__` is a strict order whose incomparable tasks have the same key |
| HousingQueue.ManualFirst | src/housing_ocr/queue_manager.py:19-23 | while a manual task is queued, no other kind is handed out, whatever its priority |
| HousingQueue.Truncated | src/housing_ocr/queue_manager.py:91 | `text[:n]` is a prefix of at most n characters, the whole text when short enough |
| HousingQueue.OcrSkips | src/housing_ocr/queue_manager.py:57-72 | a missing document, one in `current_processing` and one whose OCR is complete are skipped |
| HousingQueue.AfterOcr | src/housing_ocr/queue_manager.py:85-135 | the row after an OCR task under the manager's failure test: an exception fails the stage; a failed text counts a failure; any other text completes it |
| HousingQueue.OcrSuccess | src/housing_ocr/queue_manager.py:107-123 | under either failure test, a text it passes is stored, the error cleared, the count reset, the row processed, and exactly one priority-5 LLM task is queued |
| HousingQueue.OcrFailedText | src/housing_ocr/queue_manager.py:88-106 | under either failure test, a text it fails counts one more failure and a 500-character error; with tries left the row is pending and one priority-3 task is re-queued, else it stays failed |
| HousingQueue.FailureRunBounded | src/housing_ocr/queue_manager.py:92-102 | under either failure test, however many failed texts follow, a fresh document is re-queued at most twice |
| HousingQueue.OcrRaised | src/housing_ocr/queue_manager.py:127-135 | an exception marks the OCR stage failed with its message and queues nothing |
| HousingQueue.RequestErrorReply | src/housing_ocr/queue_manager.py:85-123 | a request-error reply of the OCR client completes the OCR stage, is stored as the text and queues the LLM as written; the corrected test counts it as a failure and queues no LLM task |
| HousingQueue.LlmSkips | src/housing_ocr/queue_manager.py:140-167 | a missing, in-hand or hand-edited document, an unfinished OCR, or a completed extraction under a non-manual task is skipped |
| HousingQueue.AfterLlm | src/housing_ocr/queue_manager.py:183-242 | the row after an LLM task: a non-empty bindable result completes the stage and sets the columns; an empty one fails it with the fixed message; one whose commit raises fails it with the error text |
| HousingQueue.LlmResult | src/housing_ocr/queue_manager.py:183-242 | the stage completes exactly for a non-empty result whose columns can be bound, and then every column is set from it; an empty result or a failed commit fails the stage and keeps the columns; the OCR stage is untouched |
| HousingQueue.ListValueFailsCommit | src/housing_ocr/queue_manager.py:234-242 | a list value in a property column, such as a list of nearby shops, makes the stage fail with the commit error and writes no column |
| HousingQueue.LoadTasksExact | src/housing_ocr/queue_manager.py:291-326 | each waiting document gets exactly one non-manual task at its stored priority, and nothing else is queued |
| HousingQueue.QueueManager.AddOcrTask | src/housing_ocr/queue_manager.py:47-50 | exactly one task joins the OCR queue |
| HousingQueue.QueueManager.AddLlmTask | src/housing_ocr/queue_manager.py:52-55 | exactly one task joins the LLM queue |
| HousingQueue.QueueManager.ProcessOcrTask | src/housing_ocr/queue_manager.py:57-138 | a missing, in-hand or completed document changes nothing; otherwise the row and queues follow the outcome under the manager's failure test (`AsWritten` in the source); the id always leaves `current_processing` |
| HousingQueue.QueueManager.ProcessLlmTask | src/housing_ocr/queue_manager.py:140-245 | skipped for a missing, in-hand or hand-edited document, unfinished OCR, or non-manual repeat; otherwise the row becomes `AfterLlm` of the result, including the failed-commit branch |
| HousingQueue.QueueManager.LoadPendingTasks | src/housing_ocr/queue_manager.py:291-326 | one OCR task per OCR-pending row and one LLM task per row waiting for the LLM, in id order |
| HousingQueue.Enqueued | src/housing_ocr/queue_manager.py:300-319 | the enqueue loop produces the tasks of the query, in order |
| HousingRetry.RetryCandidate | src/housing_ocr/retry_manager.py:45-58 | a row is picked when its count is below the limit, no worker has it, and its stored text, or "", fails the manager's test |
| HousingRetry.AfterRetry | src/housing_ocr/retry_manager.py:78-147 | the row after a retry: a failed text counts a failure and is stored; a recognised one with a bindable extraction resets the count, marks the row processed and copies the extraction; a failed commit is rolled back |
| HousingRetry.RetryResult | src/housing_ocr/retry_manager.py:83-147 | under either failure test, a failed retry counts one more failure and keeps the text; a success whose columns can be bound resets the count, marks the row processed and copies every column; a failed commit leaves the row as it was |
| HousingRetry.ExhaustedStaysOut | src/housing_ocr/retry_manager.py:47-85 | under either failure test, once the count reaches the limit the row is not picked again, even after another failure |
| HousingRetry.RetryThenPick | src/housing_ocr/retry_manager.py:45-147 | under either failure test, after a retry the row is picked again exactly when it failed and is still below the limit, or the commit was rolled back and it was picked before |
| HousingRetry.FreshRowPicked | src/housing_ocr/retry_manager.py:53-54 | under either failure test, a fresh upload with no text yet counts as failed and is picked |
| HousingRetry.RequestErrorRowPicked | src/housing_ocr/retry_manager.py:41-58 | a row holding a request-error reply is never picked by the written test; the corrected test picks it exactly while it is below the limit and not in hand |
| HousingRetry.PickedExact | src/housing_ocr/retry_manager.py:45-58 | under either failure test, over increasing rows the picked ones are exactly the candidates, still increasing |
| HousingRetry.Select | src/housing_ocr/retry_manager.py:51-56 | the loop keeps exactly the candidates of the given failure test, in order |
| HousingRetry.OcrRetryManager.GetFailedDocuments | src/housing_ocr/retry_manager.py:41-60 | exactly the rows below the limit, not in hand and failed by their stored text under the manager's test (`AsWritten` in the source), in id order |
| HousingRetry.OcrRetryManager.ProcessDocumentRetry | src/housing_ocr/retry_manager.py:62-150 | a missing or in-hand row gives false and nothing changes; true exactly when the new text passes the manager's test and its extraction can be bound; the row becomes `AfterRetry` and leaves `current_processing` |
| HousingApp.AfterLastDot | src/housing_ocr/app.py:37 | `rsplit(".", 1)[1]` is the dot-free text after the last '.' |
| HousingApp.AllowedFile | src/housing_ocr/app.py:34-37 | `allowed_file`: a name holding a '.' whose lower-cased text after the last '.' is an allowed extension |
| HousingApp.AllowedByExtension | src/housing_ocr/app.py:34-37 | a name is accepted exactly when the text after its last '.', lower-cased, is pdf, jpg, jpeg or png |
| HousingApp.NoDotRefused | src/housing_ocr/app.py:35-37 | a name with no '.', the empty one included, is refused |
| HousingApp.FileType | src/housing_ocr/app.py:82 | the recorded type is the lower-cased suffix without its dot, empty when there is none |
| HousingApp.StoredTypeAgrees | src/housing_ocr/app.py:78-82 | the stored file's suffix carries the type recorded in its row |
| HousingApp.Prepare | src/housing_ocr/app.py:86-98 | an item without a name or with a disallowed one makes nothing; otherwise the row stored for it |
| HousingApp.Commit | src/housing_ocr/app.py:100-112 | the file is renamed to its stored name; the row is added under the next id with a priority-5 OCR task unless its stored name is taken |
| HousingApp.UploadsShape | src/housing_ocr/app.py:62-114 | existing rows are kept, fresh rows join under consecutive ids, and exactly one non-manual priority-5 OCR task per new row is queued, in order |
| HousingApp.CommitShape | src/housing_ocr/app.py:100-112 | a commit leaves the table alone or adds the row under the next id, with its task |
| HousingApp.PrepareFresh | src/housing_ocr/app.py:86-98 | an accepted upload's row has every status pending and retry 0 |
| HousingApp.SkippedChangeNothing | src/housing_ocr/app.py:66-68 | disallowed files change nothing |
| HousingApp.DuplicateAddsNothing | src/housing_ocr/app.py:77-110 | identical content again adds no row and queues no task, as the unique constraint rolls the insert back |
| HousingApp.Reocr | src/housing_ocr/app.py:286-314 | the OCR reset: pending, priority 1, no retries, no error, and the LLM pending |
| HousingApp.ReocrRequeues | src/housing_ocr/app.py:294-304 | a reset row waits for OCR again at priority 1 with a full set of tries, and no longer for the LLM |
| HousingApp.RetryLlm | src/housing_ocr/app.py:316-344 | the LLM reset: pending, priority 1, no error |
| HousingApp.RetryLlmRuns | src/housing_ocr/app.py:324-332 | the LLM reset leaves every OCR field alone, and its manual task is handled once the OCR is complete |
| HousingApp.Edited | src/housing_ocr/app.py:359-393 | each listed column present in the body takes the body's value, in list order |
| HousingApp.EditedExact | src/housing_ocr/app.py:359-393 | exactly the listed columns present in the body are overwritten; every other column is kept |
| HousingApp.ManualEditSticks | src/housing_ocr/app.py:396 | a hand-edited row is skipped by LLM tasks and not queued for the LLM again |
| HousingApp.PyIntOfDigits | src/housing_ocr/app.py:173 | `int()` of a run of ASCII digits is its value |
| HousingApp.PyIntOfNegatedDigits | src/housing_ocr/app.py:173 | a minus sign and digits read as the negated value |
| HousingApp.PyIntRejectsFraction | src/housing_ocr/app.py:173-175 | text with a '.' is not an integer |
| HousingApp.BoundsOf | src/housing_ocr/app.py:163-175 | a given bound that is not an integer fails the request; otherwise each given bound is its integer |
| HousingApp.Newest | src/housing_ocr/app.py:177 | the listed ids in the range, newest first |
| HousingApp.ApiProperties | src/housing_ocr/app.py:156-203 | exactly the processed rows matching every given filter, newest first, or a failure for a bad bound |
| HousingApp.ListedMeans | src/housing_ocr/app.py:158-175 | a listed row is processed, equals each given text filter and has an integer price within each bound, inclusive |
| HousingApp.NoFilterListsProcessed | src/housing_ocr/app.py:158 | with no filters every processed row is listed |
| HousingApp.DisplayName | src/housing_ocr/app.py:185 | the property name when truthy, else the original file name |
| HousingApp.HousingApp.UploadItemStep | src/housing_ocr/app.py:70-112 | one item of the loop commits as the fold prescribes |
| HousingApp.HousingApp.CommitRow | src/housing_ocr/app.py:100-104 | the prepared row is filed, and queued when the insert succeeds |
| HousingApp.HousingApp.UploadFile | src/housing_ocr/app.py:62-114 | the table, folder and OCR queue end as the upload fold over all items prescribes |
| HousingApp.HousingApp.ApiReocr | src/housing_ocr/app.py:285-307 | a missing row gives 404 and changes nothing; otherwise the OCR reset and one manual priority-1 OCR task |
| HousingApp.HousingApp.ApiRetryLlm | src/housing_ocr/app.py:315-337 | a missing row gives 404 and changes nothing; otherwise the LLM reset and one manual priority-1 LLM task |
| HousingApp.HousingApp.ApiUpdateProperty | src/housing_ocr/app.py:345-405 | a missing row gives 404; no body, or a present listed value the driver cannot bind, gives a 500 and a rollback; otherwise the present listed columns are set and the row is marked `manual_edit` |
| Security.ClientIp | src/security.py:323-344 | the first hop of X-Forwarded-For holds no comma |
| Security.FirstHopWins | src/security.py:330-333 | only the first comma-separated hop counts, stripped; later hops and other headers make no difference |
| Security.SingleHop | src/security.py:330-333 | a single address is taken without its surrounding white space |
| Security.EmptyForwardedSkipped | src/security.py:330-337 | an empty X-Forwarded-For is skipped like a missing one |
| Security.FallbackAddress | src/security.py:339-344 | without headers the connection host is used, else "unknown" |
| Security.Traversal | src/security.py:79-120 | the case-insensitive search for any of the eleven traversal patterns |
| Security.PathDecision | src/security.py:114-137 | the path filter only passes or forbids |
| Security.AllowedNeverBlocked | src/security.py:97-101 | allowed paths are never inspected, whatever they contain |
| Security.PatternMarks | src/security.py:79-94 | every pattern holds '.', '%' or '~' |
| Security.PlainPathPasses | src/security.py:114-137 | a path without '.', '%' and '~' is never refused |
| Security.TraversalIgnoresCase | src/security.py:109-111 | the search ignores letter case |
| Security.DotDotSlashRefused | src/security.py:79-137 | a "../" anywhere in a path off the allowed list gets it refused |
| Security.EncodedUpperRefused | src/security.py:79-137 | "%2E%2E/" is refused as well |
| Security.BanLength | src/security.py:194 | a missing or zero duration means 24 hours; any other value is used as given |
| Security.Expire | src/security.py:180-190 | only that address's entry can go, and it stays exactly while `now` has not passed its expiry |
| Security.Report | src/security.py:199-206 | one report: the count goes up by one, and at or over the threshold the address is banned for 24 hours from `now` |
| Security.RepeatedReports | src/security.py:199-206 | every report counts and counts are never reset by a ban; below the threshold the entry is untouched, at or over it the last report bans for 24 hours |
| Security.ThirdReportBans | src/security.py:168-206 | with the default threshold a fresh address is banned by its third report and not before |
| Security.BanHoldsUntilExpiry | src/security.py:180-197 | a ban holds up to and including its expiry and is gone after |
| Security.IPBlacklistManager.IsBlacklisted | src/security.py:180-190 | false for an unknown address; an expired entry is deleted and answers false; at the expiry itself still banned |
| Security.IPBlacklistManager.BlacklistIp | src/security.py:192-197 | the address's expiry becomes `now` plus the ban length |
| Security.IPBlacklistManager.ReportSuspicious | src/security.py:199-206 | the new state is that of one more report |
| Security.IPBlacklistManager.WhitelistIp | src/security.py:208-215 | both the ban and the count go |
| Security.BlacklistDispatch | src/security.py:225-234 | 403 exactly when the address is banned at `now` |
| Security.PathDispatch | src/security.py:114-137 | a refused path is reported to the blacklist manager when there is one |
| Security.Recent | src/security.py:276-279 | the stamps with `now - t` under the window, in their order |
| Security.RecentKeepsAll | src/security.py:276-279 | nothing is pruned when every stamp is inside the window |
| Security.RecentIdempotent | src/security.py:276-279 | pruning twice at the same moment prunes no more |
| Security.BurstBound | src/security.py:270-286 | within one window at most `requests_per_minute` requests are allowed, counting the stored ones, and each is stored |
| Security.RateLimiter.IsAllowed | src/security.py:270-286 | allowed exactly when the pruned list is under the limit; a refused request is not recorded; the window never holds more than the limit |
| Security.RateLimitDispatch | src/security.py:296-305 | 429 exactly when the pruned list is at the limit |
| Security.SecuredHeaders | src/security.py:37-65 | the fixed four headers, the policy when CSP is on, HSTS only on https with HSTS on, each under its stored lower-cased name; every other header is kept |
| Security.HstsOnlyOverHttps | src/security.py:59-63 | the HSTS header is added exactly when HSTS is on and the scheme is https |
| Geolocation.NormalizeAllowed | src/geolocation.py:57-61 | `None`, `[]` and `["*"]` mean no restriction; any other list is kept |
| Geolocation.NewManager | src/geolocation.py:37-64 | the manager is loaded exactly when its database opened, with the normalised list |
| Geolocation.CountryCode | src/geolocation.py:93-119 | no country without a loaded database; otherwise the database's answer for the stripped address |
| Geolocation.IsAllowedIp | src/geolocation.py:121-142 | an address is admitted when its country is unknown, there is no restriction, or its country is listed |
| Geolocation.RefusedExactly | src/geolocation.py:121-142 | an address is refused exactly when there is a known country, a restriction, and the country is not listed |
| Geolocation.UnrestrictedAdmitsAll | src/geolocation.py:57-61 | without a restriction or a database every address is admitted |
| Geolocation.WildcardBesideCountry | src/geolocation.py:57-61 | "*" beside a country does not lift the restriction |
| Geolocation.ListedCountryAdmitted | src/geolocation.py:139-142 | a listed country is admitted |
| Geolocation.GeoDecision | src/geolocation.py:178-218 | the filter only passes or forbids |
| Geolocation.GeoForbiddenExactly | src/geolocation.py:193-216 | 403 exactly when the filter is on and the address is refused; off or without a database everything passes |
| Geolocation.GeoUsesFirstHop | src/geolocation.py:193-204 | only the first hop of X-Forwarded-For decides |

## Left out

- Concurrency is not modelled: the asyncio semaphore, worker threads, blocking queues, `stop_event`, `run_retry_loop` and all sleeps. Each handler is one sequential step.
- Storage is not modelled: sqlite and SQLAlchemy sessions, config TOML loading and saving, and file saving, renaming and unlinking. Files are a set of names.
- Rendering and encoding are not modelled: PDF rendering, image resizing and base64. The upload's image-dimension probe, which only writes two display columns, is left out with them.
- The OCR and LLM servers, `json.loads`, the GeoIP2 reader and `process_document` are parameters. So are MD5, SHA-256 and `secure_filename`.
- Clocks are a `now` parameter for a single step. The LLM fallback loop reads a clock, a function of the step number, at each cooldown check and each 429 stamp, and its cooldown lemmas assume that clock never goes back. 429 times, bans and rate-limiter stamps are reals; `created_at` is taken to follow the row id.
- Floating point is not modelled: `convert_japanese_units` and the resize ratios.
- Printing, logging and flash messages are not modelled, and neither are HTML pages, previews or prompt texts. The CSP text is a parameter.
- `is_valid_ip`, `GeoIPManager.close` and `is_available` are not modelled. An unavailable manager is one whose database is not loaded.
- Unmodelled ledger operations: `update_image_dimensions`, `update_location_display`, `get_all_locations`, `get_all_travel_times` and the location endpoints. `get_document` and `get_all_documents` are modelled only as far as the handlers need them: the row they return, and whether their station read raises (`Ledger.StationsRaise`, `Ledger.ListingRaises`).
- The older generation's own `models.py` is not part of this model. Both older files run on the ledger of `src/models.py`.
- `Api.App.Upload`: models the intended contract. As written, `src/app.py:108` passes two arguments to the one-argument `create_document`, and `src/app.py:93` reads a missing `original_filename` column.
- `Llm.ConvertEra`: `\d` covers ASCII and full-width digits only. Other Unicode decimal digits are left out.
- `HousingApp.BoundsOf`: `int()` is modelled for an optional sign and ASCII digits, with surrounding white space. Underscores and other Unicode digits are left out.
- `HousingApp.ApiProperties`: the equality filters compare decoded text values only. Values of other SQL storage classes never match.
- `HousingApp.PriceWithin`: only an integer price is compared with the bounds. Under SQLite's type affinity a REAL price, or a text that reads as a number, would be compared by value, and any other text sorts above every number; those rows are left out of a bounded listing here.
- `HousingApp.ListedMeans`: states the bounded listing for integer prices only, for the same reason as `HousingApp.PriceWithin`.
- `LegacyApi.LegacyApp.SetStationDurationsBatch`: every entry is taken to be an object with a text `station_name`. As written, an entry that is not a dict, or whose `station_name` is not a string, raises at app.py:370 after the earlier entries were committed.
- `LegacyApi.LegacyApp.SetStationDuration`: `station_name` is taken to be text. As written, a non-string `station_name` (a number, a list) has no `.strip()` and raises at app.py:349, giving a 500 with nothing written.
- `HousingDb.GenerateHashedFilename`: lower-cases ASCII letters only. Python's `str.lower` also folds other letters; at its one call site (src/housing_ocr/app.py:73-78) the name has already passed through `secure_filename`, which keeps ASCII characters only, so the two agree there. `HousingApp.Commit` inherits the same restriction.
- `Processor.ModelColumn`: a string tag is written to `extracted_model` and anything else is modelled as NULL. As written, sqlite stores a number or boolean tag as its text in that column, and a list or object tag makes `update_llm_status` raise. The tag the LLM adapter sets is always the model name, a string.
- `HousingDb.Bindable`: approximates what the `sqlite3` driver binds: NULL, booleans, 64-bit integers, floats and text. A list or object value fails the commit, which `HousingQueue.AfterLlm`, `HousingRetry.AfterRetry` and `HousingApp.HousingApp.ApiUpdateProperty` model as their failure branches; other driver errors are not modelled.
- `Json.Render`: strings are rendered between single quotes with no escapes. Python's `repr` switches to double quotes for a string holding `'` but no `"`, and escapes backslashes and control characters.
- `Processor.DocumentProcessor.ProcessDocument`: models the step as if the adapters were awaitable. As written, src/processor.py:70 and :109 `await` the plain values the synchronous OCR and LLM adapters return, which raises a TypeError after the call; `Processor.AwaitedAdaptersRaise` states what the step then does.
- `Security.SecuredHeaders`: header names are held in their lower-cased stored form; the case-insensitive lookup of Starlette's `MutableHeaders` is that folding and is not modelled further.
- The ledger holds `properties` already decoded. A stored text that `json.loads` rejects is not represented.
- `Security.ClientIp`: `request.client.host` is taken as given, without validation.

Observations stated as lemmas, not as findings:

- The allowed-path pattern `^/$` also admits "/\n" (`Security.AllowedNeverBlocked`).
- Paths under `/api/` are never inspected for traversal.
- `allowed_countries` honours "*" only on its own (`Geolocation.WildcardBesideCountry`).
- Suspicious counts are never reset by a ban, so every later report extends the ban (`Security.RepeatedReports`).
- A negative ban duration is used as given (`Security.BanLength`).
- The meaningful-field count includes the model-name tag itself (`Llm.TagCounts`).
- The older processor never clears a stale OCR "processing" (`LegacyProcessor.LegacyStaleOcrStuck`).
- The retry manager also picks fresh uploads with no text (`HousingRetry.FreshRowPicked`).
- A name `secure_filename` strips of its extension gives an empty file type (`HousingApp.StoredTypeAgrees`).
- `HTTPException` raised inside a `BaseHTTPMiddleware.dispatch` (src/security.py:228-232, :299-303, src/geolocation.py:213-216) is not handled by FastAPI's exception handlers there, so the client may see a 500 rather than the 403 or 429 modelled by `Security.BlacklistDispatch`, `Security.RateLimitDispatch` and `Geolocation.GeoForbiddenExactly`.
- An early `return` in `process_ocr_task` still discards the id from `current_processing`, and so does the `finally`, even when another worker holds it (`HousingQueue.QueueManager.ProcessOcrTask`).

## Findings

| source | as written | input that shows it | evidently intended | confidence | as-written member | corrected member |
|---|---|---|---|---|---|---|
| src/housing_ocr/queue_manager.py:371-384 | `is_ocr_failed` lower-cases the text but not the keywords. "OCR API错误", "OCR API error", "Connection refused" and "Max retries exceeded" hold capitals and never match. `retry_manager.py:26-39` repeats this. | "OCR API错误: 500 Server Error: Internal Server Error for url: http://localhost:8000/v1/chat/completions", the OCR client's reply to an HTTP error (src/housing_ocr/ocr.py:111-112), is classified as recognised text: OCR completes with that text and an LLM task is queued | every keyword matches case-insensitively, so every "OCR API错误: …" reply is a failure | high (not executed) | OcrFailure.AsWrittenMissesErrorReply | OcrFailure.ErrorMarkerIsFailure |

The queue manager and the retry manager take a `FailureTest`: `AsWritten`
is the source's `is_ocr_failed` (`OcrFailure.IsOcrFailedAsWritten`) and
`Corrected` is `OcrFailure.IsOcrFailed`. Their lemmas hold for both, and
`HousingQueue.RequestErrorReply` and `HousingRetry.RequestErrorRowPicked`
show where the two part.
