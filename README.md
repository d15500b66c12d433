# wikisim-supabase edge functions, modelled in Dafny

This project models the server-side pipeline of the wikisim Supabase edge
functions.

**Insert pipeline.** An edited *data component* is turned into the
argument record of the `insert_data_component_v2` / `update` database calls:
- the dependency ids the component must store are resolved
  (`get_recursive_dependency_ids`);
- the partial components those ids name are fetched in one batch
  (`get_data_components_by_id_and_version`);
- the record is laid out (`prepare_data_component_for_db_insert` /
  `_update`);
- the response is built (`respond`);
- the `ef_insert_data_component_v2` handler validates the batch, checks the
  server secret and remaps database errors.

**Upload helpers.** The helpers of `ef_upload_interactable_files`:
- validation of the parsed multipart form (`get_files_from_request`);
- the sequential upload loop with its early exit and its handling of
  duplicate (409) uploads (`upload_files_to_storage`);
- the path→id map (`process_upload_results_to_map`);
- the lowercase Base16 encoding of a SHA-256 digest (`hash_sha256_hex`,
  section 8 of RFC 4648 with the lowercase alphabet);
- the extension used for the media-type lookup (`deno_get_content_type`).

**Collaborators are parameters.** The database, the storage bucket, the
rich-text mention extractor, the evaluator, the flattening and plain-text
conversions, the digest and the media-type table are all parameters. Each
is a function from its inputs to the outcome it gives. The collaborators
that may fail have a failure outcome: a batch item's hydration and the
request's JSON parse (`None`), the database query behind the fetch (an
error answer), the insert procedure (its error field) and the storage
upload, owner update and metadata lookup (their error fields). The
extractor, the evaluator, the flattening, the plain-text conversion, the
digest and the media-type table are total functions (see "## Left out").

**Modules.** There is one module per source file:
- `Dependencies`, `FetchPartials`, `Prepare`, `Responses`, `InsertHandler`,
  `GetFiles`, `UploadStorage`, `UploadMap`, `Hex` and `ContentType`;
- shared models: `JsValue` (JavaScript values, truthiness and property
  reads), `Text` (decimal formatting, first-occurrence replace, split),
  `Ids` (`IdAndVersion`, its canonical key `"{id}v{version}"` and a
  first-seen de-duplication), `Components`, `Errors`, `UploadInterface` and
  `Wrappers`.

**State and loops.** The insert preparer writes the resolved ids onto the
component it is handed, so that component is a `Prepare.DataComponentObject`
with a mutable field. The upload loop, the form validation and the map
building are methods with loops. Each is proved equal to a specification
function, and the properties are proved about those functions.

**Duplicate handling.** Duplicate ids are an explicit
`Dependencies.DuplicatePolicy`:
- `KeepRepeats` keeps every repeat the closure produces; the code never
  removes repeats;
- `FirstSeenOnly` reduces it to an ordered, duplicate-free list that keeps
  each id's first occurrence.

The fixtures never contain a repeat. The
properties are therefore stated for both policies, and the lemma
`Dependencies.PoliciesAgreeWithoutRepeats` proves that the two agree
whenever nothing repeats.

## Model

| member | source | states |
|---|---|---|
| Dependencies.Resolve | supabase/functions/_shared/get_recursive_dependency_ids.test.ts:18-82 | The corrected resolver, following the rule the test asserts. It fails only when a function component with references gets a failing fetch. On success every direct reference is among the stored ids. The closure and ordering rules are the lemmas below. |
| Dependencies.Closure | supabase/functions/_shared/get_recursive_dependency_ids.test.ts:43-82 | The ids a function component stores given the fetched partials: each direct reference preceded by the stored ids of a function target. ClosureMembers, ClosureAt and ClosureAppend state its members, layout and concatenation. |
| Dependencies.NoReferencesNoFetch | supabase/functions/_shared/get_recursive_dependency_ids.test.ts:18-32 | A component without references stores [] under any value_type and policy, whatever the fetch would answer. |
| Dependencies.NonFunctionStoresDirectReferences | supabase/functions/_shared/get_recursive_dependency_ids.test.ts:33-42 | A non-function component stores the extractor's list untouched (first-seen under the de-duplicating policy), and the fetch is never consulted. |
| Dependencies.NonFunctionOverFunctionTarget | supabase/functions/_shared/get_recursive_dependency_ids.test.ts:70-82 | A number component mentioning function 5 stores only [5]. |
| Dependencies.FunctionOverNonFunctionTargets | supabase/functions/_shared/get_recursive_dependency_ids.test.ts:43-56 | A function mentioning 1 and 3 (a number depending on 1 and 2) stores [1, 3]. Id 2 is not pulled in. |
| Dependencies.FunctionOverFunctionTarget | supabase/functions/_shared/get_recursive_dependency_ids.test.ts:57-69 | A function mentioning function 4, whose stored ids are [1, 3], stores [1, 3, 4]. |
| Dependencies.ClosureOfNonFunctionTargets | supabase/functions/_shared/get_recursive_dependency_ids.test.ts:43-56 | When no direct reference is a function, the closure is the direct list itself. |
| Dependencies.ClosureMembers | supabase/functions/_shared/get_recursive_dependency_ids.test.ts:43-69 | An id is stored iff it is a direct reference or is stored by a direct reference that is a function. |
| Dependencies.ClosureAt | supabase/functions/_shared/get_recursive_dependency_ids.test.ts:57-69 | Ordering: what the i-th reference pulls in sits right before it, after everything earlier references contributed. |
| Dependencies.ClosureAppend | supabase/functions/_shared/get_recursive_dependency_ids.test.ts:43-69 | The closure distributes over concatenation of the direct list. |
| Dependencies.FetchFailurePropagates | supabase/functions/_shared/prepare_data_component_for_db.ts:32 | A failing batch fetch fails the resolution with the same error. |
| Dependencies.MissingInputReadsAsEmpty | supabase/functions/_shared/get_recursive_dependency_ids.ts:8 | A missing `input_value` is handed to the extractor as "". |
| Dependencies.FirstSeenPolicyIsUnique | supabase/functions/_shared/get_recursive_dependency_ids.ts:8-12 | Under the first-seen policy the stored list has no repeats and holds exactly the ids of the list kept as found. |
| Dependencies.PoliciesAgreeWithoutRepeats | supabase/functions/_shared/get_recursive_dependency_ids.ts:8-12 | When the list kept as found has no repeats, both policies store the same list. |
| Dependencies.RepeatedIdUnderPolicies | supabase/functions/_shared/get_recursive_dependency_ids.ts:8-12 | A repeat is kept as found ([A, A, B, C]) or reduced to its first position ([A, B, C]). |
| Dependencies.ResolveAsWritten | supabase/functions/_shared/get_recursive_dependency_ids.ts:6-13 | The body as written: the extractor applied to the argument's `input_value`, or to "" when that is missing, falsy or not text. AsWrittenLosesReferences and AsWrittenSkipsClosure state where it departs from the test. |
| Dependencies.AsWrittenLosesReferences | supabase/functions/_shared/get_recursive_dependency_ids.ts:6-13 | The body as written, handed the caller's wrapper object, reads no `input_value` and returns [] where the corrected resolver returns [1, 2]. |
| Dependencies.AsWrittenSkipsClosure | supabase/functions/_shared/get_recursive_dependency_ids.ts:6-13 | Even handed the component itself, the body returns [4] where the test expects [1, 3, 4]. |
| FetchPartials.GetDataComponentsByIdAndVersion | supabase/functions/_shared/deno_get_data_components_by_id_and_version.ts:13-41 | Empty request → [] with no query. A query error → ERR37. A row count different from the request → ERR38, checked after the error check. Otherwise one partial per row in row order, each hydrating its row. |
| FetchPartials.EmptyRequestSkipsQuery | supabase/functions/_shared/deno_get_data_components_by_id_and_version.test.ts:25-31 | The answer to an empty request does not depend on the database at all. |
| FetchPartials.CountCheckIgnoresWhichIds | supabase/functions/_shared/deno_get_data_components_by_id_and_version.ts:28 | Rows for ids other than the requested ones pass, provided there are as many. |
| FetchPartials.HydrateRows | supabase/functions/_shared/deno_get_data_components_by_id_and_version.ts:34-38 | Succeeds iff every stored key is well formed. Each output keeps its row's (id, version_number), value_type and dependency ids. |
| FetchPartials.HydrateExampleRows | supabase/functions/_shared/deno_get_data_components_by_id_and_version.test.ts:34-55 | The test rows: "5v1" hydrates to id 5 version 1, and an empty stored list to undefined. |
| FetchPartials.HydrateStoredKeys | supabase/functions/_shared/deno_get_data_components_by_id_and_version.ts:37 | Hydrating the canonical keys of ids gives those ids back (undefined for none). |
| FetchPartials.ReadKeys | supabase/functions/_shared/deno_get_data_components_by_id_and_version.ts:37 | Reading keys succeeds iff every key is well formed, and then yields one id per key, in order. |
| FetchPartials.HydrateListOfIds | supabase/functions/_shared/deno_get_data_components_by_id_and_version.ts:37 | An empty stored list is undefined; otherwise every key is read back, or the read fails. HydrateStoredKeys states that canonical keys hydrate back to their ids. |
| Ids.FromStrToStr | supabase/functions/_shared/deno_get_data_components_by_id_and_version.test.ts:39-40 | The canonical key of an id reads back as that id. |
| Prepare.PrepareInsert | supabase/functions/_shared/prepare_data_component_for_db.ts:27-88 | Returns the insert record of the component as it was, or the failure that aborts it. Leaves the component with the resolved dependency ids written on it, and otherwise unchanged. |
| Prepare.PrepareUpdate | supabase/functions/_shared/prepare_data_component_for_db.ts:92-110 | Returns the update record derived from the insert record, with the same write to the component. |
| Prepare.InsertArgsFor | supabase/functions/_shared/prepare_data_component_for_db.ts:27-88 | The insert preparation as a value: a resolution failure, ERR27 on a truthy evaluator error, or the insert record of the flattened row. The lemmas below state its keys, values and failures. |
| Prepare.AfterResolution | supabase/functions/_shared/prepare_data_component_for_db.ts:32-33 | The component with the resolved ids written on it, or unchanged when resolution fails. PrepareInsert leaves this as the component's new state. |
| Prepare.InsertRecord | supabase/functions/_shared/prepare_data_component_for_db.ts:53-85 | The argument record laid out from the row. InsertRecordKeys and InsertRecordValues state its exact keys and values. |
| Prepare.UpdateArgsFor | supabase/functions/_shared/prepare_data_component_for_db.ts:92-110 | The update preparation as a value: the insert's failure, or the update record of the insert record. UpdateFollowsInsert states how the two relate. |
| Prepare.UpdateFromInsert | supabase/functions/_shared/prepare_data_component_for_db.ts:97-107 | The update record built from the insert record and the component's id. UpdateRecordLayout states its keys and values. |
| Prepare.InsertStoresResolvedIds | supabase/functions/_shared/prepare_data_component_for_db.ts:32-33 | A successful insert writes the resolver's ids onto the component. Assuming the flattening writes dependency ids as the array of their canonical keys (`FlattenStoresKeys`, which the model does not check because the flattening is a parameter), the record emits them as `p_recursive_dependency_ids` (line 70) and hydrating those keys returns the ids. |
| Prepare.EvaluationErrorAborts | supabase/functions/_shared/prepare_data_component_for_db.ts:42-46 | The evaluator sees the resolved component. A truthy error gives ERR27 and no record; otherwise a record is produced. |
| Prepare.ResolutionFailureAborts | supabase/functions/_shared/prepare_data_component_for_db.ts:32-33 | A resolver failure aborts the insert with that failure and leaves the component untouched. |
| Prepare.ResultValueOrNull | supabase/functions/_shared/prepare_data_component_for_db.ts:47 | `p_result_value` is the evaluator's result, or null when there is none. It is never undefined. |
| Prepare.InsertRecordKeys | supabase/functions/_shared/prepare_data_component_for_db.ts:59-85 | The insert record has exactly the insert keys. It includes `p_owner_id`, `p_test_run_id` and `p_id`, and never `p_version_number`, `p_editor_id` or `p_created_at`. |
| Prepare.InsertRecordValues | supabase/functions/_shared/prepare_data_component_for_db.ts:53-85 | Every copied row field passes through unchanged under its `p_` key. The record also carries the result value, the plain-text title and description (lines 56-57) and `p_id`, which is the row id or null. |
| Prepare.CopiedFieldsExactly | supabase/functions/_shared/prepare_data_component_for_db.ts:59-85 | The copied fields are every row field except id, version, editor, creation time and the computed fields. |
| Prepare.CopiedRecordShape | supabase/functions/_shared/prepare_data_component_for_db.ts:59-85 | The copied part of the record has a `p_` key for each copied field and no other key. Each holds the row's field, or undefined when the row lacks it. |
| Prepare.UpdateRecordLayout | supabase/functions/_shared/prepare_data_component_for_db.ts:97-107 | The update record drops `p_owner_id`, `p_test_run_id` and the insert `p_id`. It sets `p_id` to id.id and `p_version_number` to id.version, and leaves every other field as the insert record had it. |
| Prepare.UpdateFollowsInsert | supabase/functions/_shared/prepare_data_component_for_db.ts:97-101 | The update succeeds iff the insert does, fails with the same error, and has exactly the update keys. |
| Responses.Respond | supabase/functions/_shared/respond.ts:40-71 | Below 400 with data → that status and the data. From 400 with an error → that status and {code: status, message}. A mismatch → 500 with ERR20. The status is the given one or 500, the body is error-shaped iff the status is at least 400 (its code is then the status), and the headers are always the JSON CORS headers. |
| Responses.RespondIgnoresOtherField | supabase/functions/_shared/respond.ts:43-50 | Below 400 `ef_error` is ignored; from 400 on `ef_data` is ignored. |
| InsertHandler.BatchError | supabase/functions/ef_insert_data_component_v2/index.ts:63-71 | ERR16 iff the batch is not an array. ERR17 iff it is an array of length 0 or above 10. No error iff the length is 1 to 10. |
| InsertHandler.BatchOf | supabase/functions/ef_insert_data_component_v2/index.ts:63 | `const { batch } = payload`: a throw for undefined or null, the `batch` field of an object, undefined otherwise. MissingBatchIsFormatError states its consequence. |
| InsertHandler.BatchShapeRefused | supabase/functions/ef_insert_data_component_v2/index.ts:63-71 | A non-array batch gets 400 with ERR16, which wins over the count. An array of length 0 or above 10 gets 400 with ERR17. |
| InsertHandler.MissingBatchIsFormatError | supabase/functions/ef_insert_data_component_v2/index.ts:63-64 | A payload without a truthy `batch` gets 400 with ERR16. |
| InsertHandler.HydrateAll | supabase/functions/ef_insert_data_component_v2/index.ts:77-78 | Succeeds iff every item hydrates, giving one component per item in batch order. |
| InsertHandler.PrepareAll | supabase/functions/ef_insert_data_component_v2/index.ts:79-80 | Succeeds iff every component prepares, giving one record per component in batch order. |
| InsertHandler.ValidBatchIsPrepared | supabase/functions/ef_insert_data_component_v2/index.ts:77-80 | A batch of 1 to 10 items throws iff an item fails to hydrate or to prepare. |
| InsertHandler.SaveToDb | supabase/functions/ef_insert_data_component_v2/index.ts:61-99 | `save_to_db`: batch validation, hydration and preparation of every item, the secret check, then the procedure's outcome. BatchShapeRefused, ValidBatchIsPrepared and SecretCheckedAfterPreparation state each branch. |
| InsertHandler.SecretCheckedAfterPreparation | supabase/functions/ef_insert_data_component_v2/index.ts:83-84 | A failed preparation throws even without a secret. A missing or empty secret gives 500 with ERR18, and the procedure is then never called. |
| InsertHandler.PublicMessage | supabase/functions/ef_insert_data_component_v2/index.ts:93-94 | The message shown for a procedure error. PublicMessageRemap states when it is kept and when replaced by ERR19. |
| InsertHandler.StatusOr500 | supabase/functions/ef_insert_data_component_v2/index.ts:95 | `response.status \|\| 500`. RpcOutcomeStatus states the status answered. |
| InsertHandler.RpcOutcome | supabase/functions/ef_insert_data_component_v2/index.ts:87-98 | The response to the procedure's answer. RpcOutcomeStatus states it for errors and for success. |
| InsertHandler.PublicMessageRemap | supabase/functions/ef_insert_data_component_v2/index.ts:93-94 | A database message is shown iff it starts with "ERR"; otherwise ERR19 is shown. |
| InsertHandler.RpcOutcomeStatus | supabase/functions/ef_insert_data_component_v2/index.ts:87-98 | A procedure error answers with its status (500 if that is 0), or with 500 and ERR20 when the status is below 400. Success answers 200 with the procedure's data. |
| InsertHandler.HandlerBranches | supabase/functions/ef_insert_data_component_v2/index.ts:27-56 | OPTIONS answers "ok" before authorization. No Authorization header → 401 with ERR28. A body that fails to parse, or a throw → 500 with ERR29. |
| InsertHandler.HandlerResponsesAreWellFormed | supabase/functions/ef_insert_data_component_v2/index.ts:35-56 | Every non-OPTIONS answer carries the JSON CORS headers and is error-shaped iff its status is at least 400. |
| InsertHandler.HandleInsert | supabase/functions/ef_insert_data_component_v2/index.ts:27-57 | The request handler. HandlerBranches and HandlerResponsesAreWellFormed state its branches and the shape of every answer. |
| GetFiles.GetFilesFromRequest | supabase/functions/ef_upload_interactable_files/get_files_from_request.ts:13-45 | No payload or no files → 400 with ERR43. Otherwise a list-valued field → 400 with ERR44 and the first list's length, before any size check. Otherwise a total above the limit → 400 with ERR45 and "%" replaced by the megabytes. Otherwise one file per field, in field order. |
| GetFiles.CollectSingles | supabase/functions/ef_upload_interactable_files/get_files_from_request.ts:21-31 | The loop over the form's values stops at the first list-valued field, at the position `FirstList` gives. When there is none it collects `Singles`, one file per field in order. |
| GetFiles.SumSizes | supabase/functions/ef_upload_interactable_files/get_files_from_request.ts:34-38 | The running total equals `TotalSize` of the files. |
| GetFiles.FirstList | supabase/functions/ef_upload_interactable_files/get_files_from_request.ts:23-29 | None iff every field holds one file. Otherwise the position of the first list, with single files before it. |
| GetFiles.Singles | supabase/functions/ef_upload_interactable_files/get_files_from_request.ts:21-31 | One file per field, in field order. |
| GetFiles.ListRefusalIgnoresSizes | supabase/functions/ef_upload_interactable_files/get_files_from_request.ts:23-31 | The list refusal depends on nothing after the first list, sizes included. |
| GetFiles.TotalSizeAppend | supabase/functions/ef_upload_interactable_files/get_files_from_request.ts:34-38 | The total of a concatenation is the sum of the totals. |
| GetFiles.TotalSizeBoundsEachFile | supabase/functions/ef_upload_interactable_files/get_files_from_request.ts:34-38 | No file is larger than the total. |
| Text.ReplaceFirstOccurrence | supabase/functions/ef_upload_interactable_files/get_files_from_request.ts:42 | `replace("%", x)` replaces the first '%' only; a text without '%' is unchanged. |
| Text.IntToStringRoundTrip | supabase/functions/ef_upload_interactable_files/get_files_from_request.ts:28 | The decimal text of an integer reads back as that integer. |
| UploadStorage.UploadFilesToStorage | supabase/functions/ef_upload_interactable_files/upload_files_to_storage.ts:15-30 | The loop's results are those of `UploadAll`: the tagged results of the files before the first failure, and whether one failed. |
| UploadStorage.UploadAll | supabase/functions/ef_upload_interactable_files/upload_files_to_storage.ts:19-29 | Each result is file i's upload tagged with its path. The error flag is set iff fewer results than files, and the file after the last result then failed. |
| UploadStorage.AllFilesUploaded | supabase/functions/ef_upload_interactable_files/upload_files_to_storage.ts:19-29 | When every file succeeds: no error, one result per file, and result i has path files[i].name. |
| UploadStorage.FirstFailureStops | supabase/functions/ef_upload_interactable_files/upload_files_to_storage.ts:25-26 | When file k is the first failure: error, and exactly the k earlier results. |
| UploadStorage.LaterFilesIgnored | supabase/functions/ef_upload_interactable_files/upload_files_to_storage.ts:26 | After a failure, files appended later change nothing: they are never attempted. |
| UploadStorage.UploaderOf | supabase/functions/ef_upload_interactable_files/upload_files_to_storage.ts:22-23 | Each file is uploaded under its name with `file.content.buffer`, the whole buffer behind its content. |
| UploadStorage.UploadFile | supabase/functions/ef_upload_interactable_files/upload_files_to_storage.ts:33-108 | `upload_file` as a value: the stored object, or None when the file failed. StoredUnderDigest, OtherErrorsFail, FreshUploadSetsOwner and DuplicateIsLookedUp state its branches. |
| UploadStorage.IsDuplicate | supabase/functions/ef_upload_interactable_files/upload_files_to_storage.ts:54 | The duplicate answer: status code "409" and message "The resource already exists". OtherErrorsFail and DuplicateIsLookedUp state what follows from it. |
| UploadStorage.NamedByBuffer | supabase/functions/ef_upload_interactable_files/upload_files_to_storage.ts:23-36 | The storage name comes from the whole buffer, not from the bytes the view shows: files showing the same bytes from buffers of different digests get different names. |
| UploadInterface.ViewSpansBuffer | supabase/functions/ef_upload_interactable_files/upload_files_to_storage.ts:23 | A content view shows its whole buffer exactly when it starts at 0 and spans the buffer, which is when hashing the buffer hashes the file's own bytes. |
| UploadStorage.StoredUnderDigest | supabase/functions/ef_upload_interactable_files/upload_files_to_storage.ts:36-46 | The storage name is the hex digest of the buffer handed in, with no extension. Uploads never overwrite (`upsert` false) and carry the media type of the path's extension. |
| UploadStorage.OtherErrorsFail | supabase/functions/ef_upload_interactable_files/upload_files_to_storage.ts:49-65 | Any storage error other than 409 "The resource already exists" fails the file. |
| UploadStorage.FreshUploadSetsOwner | supabase/functions/ef_upload_interactable_files/upload_files_to_storage.ts:69-85 | After a fresh upload the file fails iff the set-owner call reports an error; otherwise the stored object is the result. |
| UploadStorage.DuplicateIsLookedUp | supabase/functions/ef_upload_interactable_files/upload_files_to_storage.ts:86-107 | For a duplicate, a lookup error or an empty answer fails the file. Otherwise the result is {first file_id, digest, bucket + "/" + digest}. |
| UploadMap.ProcessUploadResultsToMap | supabase/functions/ef_upload_interactable_files/process_upload_results_to_map.ts:4-13 | The map built entry by entry is `PathToId` of the input. |
| UploadMap.PathToId | supabase/functions/ef_upload_interactable_files/process_upload_results_to_map.ts:6-10 | The path→id map of a list of results, entry by entry. KeysArePaths, LastEntryWins and DistinctPathsKeepEveryEntry state its keys and values. |
| UploadMap.KeysArePaths | supabase/functions/ef_upload_interactable_files/process_upload_results_to_map.ts:7-10 | The keys are exactly the input's file paths. |
| UploadMap.LastEntryWins | supabase/functions/ef_upload_interactable_files/process_upload_results_to_map.ts:7-10 | A path maps to the id of its last entry. |
| UploadMap.EmptyInputEmptyMap | supabase/functions/ef_upload_interactable_files/process_upload_results_to_map.ts:6 | An empty input gives an empty map. |
| UploadMap.DistinctPathsKeepEveryEntry | supabase/functions/ef_upload_interactable_files/process_upload_results_to_map.ts:7-10 | Distinct paths give as many entries as inputs. |
| Hex.Hex | supabase/functions/_shared/deno_hash_file_content.ts:7 | Two characters per byte. |
| Hex.ByteToHexDigits | supabase/functions/_shared/deno_hash_file_content.ts:7 | A byte is written as its high and low hex digit. A byte below 16 gets a leading '0'. |
| Hex.ToRadix16Byte | supabase/functions/_shared/deno_hash_file_content.ts:7 | `b.toString(16)` of a byte is one digit below 16, else its high digit then its low digit. |
| Hex.ByteToHexRoundTrip | supabase/functions/_shared/deno_hash_file_content.ts:7 | A byte's two characters are lowercase hex digits and read back as that byte. |
| Hex.HexIsLowercase | supabase/functions/_shared/deno_hash_file_content.ts:7 | Every character is 0-9 or a-f. |
| Hex.HexAt | supabase/functions/_shared/deno_hash_file_content.ts:7 | Byte i occupies characters 2i and 2i+1. |
| Hex.HexAppend | supabase/functions/_shared/deno_hash_file_content.ts:7 | Encoding a concatenation is concatenating the encodings. |
| Hex.UnhexHex | supabase/functions/_shared/deno_hash_file_content.ts:7 | Decoding the character pairs gives the bytes back. |
| Hex.HexInjective | supabase/functions/_shared/deno_hash_file_content.ts:7 | Different byte strings have different encodings. |
| Hex.StorageNameLength | supabase/functions/_shared/deno_hash_file_content.ts:4-8 | A 32-byte SHA-256 digest gives a 64-character lowercase hex name. |
| Hex.HashSha256Hex | supabase/functions/_shared/deno_hash_file_content.ts:4-8 | The storage name: the hex encoding of the digest. StorageNameLength, HexIsLowercase and HexInjective state its length, alphabet and injectivity. |
| Hex.PadStart | supabase/functions/_shared/deno_hash_file_content.ts:7 | `padStart` fills in front up to the width and keeps the text as its suffix. |
| Hex.ToRadix16 | supabase/functions/_shared/deno_hash_file_content.ts:7 | `toString(16)` gives lowercase hex digits: one digit below 16, two digits below 256. |
| ContentType.ExtensionAfterLastDot | supabase/functions/_shared/deno_get_content_type.ts:10 | The key is the text after the last '.'. |
| ContentType.Extension | supabase/functions/_shared/deno_get_content_type.ts:10 | `path.split(".").slice(-1)[0]`. ExtensionAfterLastDot and ExtensionIsDotFreeSuffix state that it is the dot-free text after the last '.'. |
| ContentType.ContentTypeOf | supabase/functions/_shared/deno_get_content_type.ts:7-12 | The media type looked up by the extension. StoredUnderDigest states that uploads carry it. |
| ContentType.ExtensionExamples | supabase/functions/_shared/deno_get_content_type.test.ts:8-9 | "index.html" → "html" and "assets/image.png" → "png". Also "notes." → "", and "dir.v1/readme" → "v1/readme" because the split is not path-aware. |
| ContentType.ExtensionWithoutDot | supabase/functions/_shared/deno_get_content_type.ts:10 | A path without '.' is its own key. |
| ContentType.ExtensionIsDotFreeSuffix | supabase/functions/_shared/deno_get_content_type.ts:10 | The key never contains '.' and is a suffix of the path. |
| ContentType.LastPieceAfter | supabase/functions/_shared/deno_get_content_type.ts:10 | The last piece of `split` is the text after a separator that has no separator after it. |
| Text.JoinSplit | supabase/functions/_shared/deno_get_content_type.ts:10 | Joining the pieces of `split` on the separator gives the text back. |
| Text.SplitPartsLackSeparator | supabase/functions/_shared/deno_get_content_type.ts:10 | No piece of `split` contains the separator. |

## Left out

- The rich-text mention extractor and the plain-text conversion are parameters. They are DOM-parser wrappers, and `deno_get_referenced_ids_from_tiptap.ts` and `convert_tiptap_text_to_plain_text.deno.ts` are not part of this model. So "<p>Test Title</p>" becoming "Test Title" is a property of the given conversion, not of the model.
- `calculate_result_value` is a parameter returning an `EvalResponse`. Rendering a function as "(a, b = 1) => a + b" belongs to the evaluator, which is not part of this model.
- The flattening to a database row, hydration of a batch item, `make_or_clause_for_ids` and the `ERRORS` message table are not part of this model. They are parameters: `Pipeline.flatten`, `Env.hydrate`, the `Query` outcome and `Messages`.
- `hydrate_list_of_ids` and `IdAndVersion.to_str` are not part of this model. They are modelled as the canonical key `"{id}v{version}"` and its parse, with an empty list read as undefined. A malformed stored key fails as `MalformedStoredId`.
- SHA-256 (`crypto.subtle.digest`), the `contentType` media-type table and `multiParser` are foreign library calls and are parameters. The parser's result is the input of `GetFiles.GetFilesFromRequest`.
- `JSON.stringify` and the wire spelling of bodies, records and the path→id map are left out. Responses carry structured bodies, and `process_upload_results_to_map` returns the map before stringifying.
- `Promise.all` in the insert handler is modelled as a sequential map. Its concurrency, and the order of side effects between hydration and preparation, are not modelled.
- The Supabase clients, `Deno.env`, the HTTP server loop and console logging are left out. The storage calls are given outcomes indexed by the file's position.
- `ef_upload_interactable_files/index.ts`, `compute_field_values/index.ts`, the sandbox placeholder, the storage migration script, the demo script and the lint configuration are left out. They are request sequencing, I/O or tooling.
- The extractor, `calculate_result_value`, the flattening, the plain-text conversion, `crypto.subtle.digest` and the media-type lookup are assumed never to throw. In the source a rejection of any of them aborts the insert (answered 500 with ERR29 by the handler's catch) or the upload; the model gives them no failure outcome.
- Dates and their ISO formatting are left out. Row values are opaque `JsValue.Value`s.
- `MAX_INTERACTABLE_SIZE` is a `SizeLimit` of naturals. Floating-point file sizes and megabyte figures are not modelled.
- InsertHandler.StatusOr500: `response.status || 500` is modelled on an integer status, so only 0 counts as falsy (no NaN).
- InsertHandler.BatchOf: destructuring `batch` from a payload is modelled for objects, null and undefined. Any other JSON value reads `batch` as undefined, and the `__proto__` key is not modelled.
- Dependencies.Resolve: the model trusts the fetch to answer one partial per requested id, as the count check of `get_data_components_by_id_and_version` ensures. A target missing from the answer contributes only itself.

## Findings

| source | as written | input that shows it | evidently intended | confidence | as-written member | corrected member |
|---|---|---|---|---|---|---|
| supabase/functions/_shared/get_recursive_dependency_ids.ts:6-13 | The function takes the component and returns the mentions in `data_component.input_value \|\| ""`, with no closure for function components. Its caller (prepare_data_component_for_db.ts:32) and its test (get_recursive_dependency_ids.test.ts:111) pass `{ data_component, get_data_components_by_id_and_version }`, whose `input_value` is undefined. | A "number" component mentioning ids 1 and 2, prepared through the caller: [] is stored instead of [1, 2]. A "function" component mentioning function 4 (stored ids [1, 3]), even handed directly: [4] instead of [1, 3, 4]. | Accept the wrapper object. Return the direct references for non-function components, and for function components each function target's stored ids followed by the target, as the test asserts. | not executed | Dependencies.ResolveAsWritten, Dependencies.AsWrittenLosesReferences, Dependencies.AsWrittenSkipsClosure | Dependencies.Resolve |
