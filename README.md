# Grading backend core, in Dafny

This project models the core of an automated assignment-grading backend.
A teacher's answer key and students' submissions are uploaded and stored as
file records. Each submission is graded against the key and a rubric by a
large language model, singly or in batches. Documents are also cut into
overlapping chunks for a retrieval index.

The modules follow the program's files:

- `Base`, `Json`, `Text`: Option/Result, JSON-shaped Python values and rows,
  Python truthiness, and the Python string operations the code uses
  (`find`/`in`, `split`, `split()`, `strip`, `startswith`, `upper`/`lower`,
  `str(n)`).
- `Rubric`: `validate_rubric`. It is the same in both revisions of the
  grading service.
- `Grading`, `AppGrading`, `DomainGrading`: `grade_assignment` in each
  revision. The first revision rejects replies that mention "Error". The
  second takes the JSON payload out of a Markdown code fence and falls back
  to the raw reply.
- `Rag`: the chunker `_split_text`, written as the loops of the source and
  proved equal to a value-level definition, and the records and count that
  `index_document` builds.
- `Db`: an in-memory model of the tables, plus the `Database.execute`
  dispatcher, `_extract_table_name` and `SupabaseResult`.
- `FileService`: the upload path layout of `save_file`, and
  `create_file_record` with the student id taken from the file name.
- `BatchEndpoint`: the module-level `batch_status` map of the batch API and
  its five operations. `Registry` is a class over that map.
- `BatchService`: the database-backed batch service:
  - `process_teacher_file`;
  - `process_batch`, which writes one result row per student;
  - `get_batch_results`.

Outside services become parameters:

- the text-generation service (`Service`, `Grader`);
- `json.loads` (`Decoder`);
- the embedding service (`Embedder`);
- the files query of the batch API (`FilesQuery`);
- the uuid, the clock's ISO time (`now`), the uploaded bytes and the text
  extracted from a PDF.

The two per-file loops, `BatchEndpoint.Fill` and `BatchService.Run`, take
their step as a function parameter; `ItemStep` and `ResultStep` are the
steps the source performs. The loops' properties are proved for any step
that stores each row under its own id, or tags it with its batch and file.

The disk, the database tables, the vector collection and the batch map are
classes whose methods change them in place.

## Model

| member | source | states |
|---|---|---|
| Text.Split | backend/domain/grading/services.py:117 | `split(sep)` pieces join back to the string, none holds the separator, and there is more than one piece exactly when the separator occurs |
| Text.WordsKeepText | backend/app/domain/services/rag_service.py:96 | `split()` drops only white space: its words, concatenated, are the non-space characters in order |
| Rubric.CheckCriterionIff | backend/app/services/grading_service.py:34-54 | one criterion passes exactly when its details are a dict holding a numeric (int, float or bool) `weight` and a string `criteria` |
| Rubric.CheckEntriesIff | backend/app/services/grading_service.py:34-54 | the loop over the criteria passes exactly when every details value is well formed |
| Rubric.ValidateRubricIff | backend/app/services/grading_service.py:30-54 | a rubric passes exactly when it is a dict whose every criterion is well formed; weights are never summed |
| Rubric.FirstFailureReported | backend/domain/grading/services.py:28-48 | a failing rubric reports the error of its first ill-formed criterion, and all criteria before it are well formed |
| Rubric.IntegrationTestRubrics | backend/tests/test_integration.py:173-201 | the three invalid rubrics of the test fail: missing weight, missing criteria, and weight "100" not a number |
| AppGrading.GuardComesFirst | backend/app/services/grading_service.py:74-78 | an empty answer, reference or falsy rubric gives "Missing required input", before validation and whatever the service would reply |
| AppGrading.RubricErrorNotRewrapped | backend/app/services/grading_service.py:77-80 | the rubric error is raised as it is, outside the try block, with no prefix |
| AppGrading.GradeSucceedsIff | backend/app/services/grading_service.py:97-110 | grading succeeds exactly when the inputs are present, the rubric is valid and the reply neither raises nor contains "Error"; the reply is then returned unchanged with success true |
| AppGrading.CallFailuresRewrapped | backend/app/services/grading_service.py:104-114 | once the inputs pass, a raised call and an "Error" reply both become "Failed to grade assignment: …", the latter with "LLM error: " and the reply |
| AppGrading.EmptyInputsRejected | backend/tests/test_integration.py:163-169 | empty answers with an empty rubric are rejected with the missing-input error |
| AppGrading.UnreachableServiceRejected | backend/app/services/llm_client.py:34-35 | the client's "service not accessible" reply contains "Error", so grading rejects it |
| DomainGrading.DomainGuardsFirst | backend/domain/grading/services.py:58-62 | the missing-input guard comes first, then rubric validation, as in the other revision |
| DomainGrading.JsonBlockRoundTrip | backend/domain/grading/services.py:116-117 | a reply with a "```json" block yields the block's body, stripped, when no "```json" starts before it, no "```" starts in the body and the text after the block does not begin with a backtick |
| DomainGrading.PlainBlockRoundTrip | backend/domain/grading/services.py:118-119 | a reply with no "```json" and a bare "```" block yields the body between the fences, stripped, when no "```" starts before the block or in its body |
| DomainGrading.NoFenceUnchanged | backend/domain/grading/services.py:115-119 | a reply holding no fence is decoded as it is, not stripped |
| DomainGrading.PayloadHasNoFence | backend/domain/grading/services.py:115-119 | the extracted payload never contains "```" |
| DomainGrading.ExtractIdempotent | backend/domain/grading/services.py:115-119 | extracting from an extracted payload changes nothing |
| DomainGrading.DomainGradeOutcome | backend/domain/grading/services.py:106-139 | once the inputs pass, grading fails only when the service raises (with the prefix); otherwise success is true, the result is the decoded payload, or the whole original reply when decoding fails |
| Rag.Chunked | backend/app/domain/services/rag_service.py:85-97 | empty text gives no chunks; only a size below 10 (a zero `range` step) can raise |
| Rag.SplitText | backend/app/domain/services/rag_service.py:81-130 | the loops compute exactly `Chunked`, the ValueError of a zero step included |
| Rag.MergeGroups | backend/app/domain/services/rag_service.py:96-103 | the inner loop offers each group of `size // 10` words, joined by spaces, with the "\n" separator, as `OfferAll` defines |
| Rag.GroupsPartition | backend/app/domain/services/rag_service.py:96-103 | the groups cut the words in order: each is its words joined by spaces, every group but the last has exactly `size // 10` words, the last one to `size // 10` |
| Rag.GroupsJoin | backend/app/domain/services/rag_service.py:96-103 | joining the groups with spaces gives the words joined with spaces |
| Rag.OverlapChunks | backend/app/domain/services/rag_service.py:117-128 | the overlap loop computes `Overlap` |
| Rag.Tail | backend/app/domain/services/rag_service.py:126 | the overlap text is the last min(overlap, length) characters of the previous chunk |
| Rag.OverlapShape | backend/app/domain/services/rag_service.py:117-128 | the overlap pass keeps the number of chunks and chunk 0; chunk i is the tail of chunk i-1 followed by chunk i |
| Rag.OverlapRoundTrip | backend/app/domain/services/rag_service.py:122-127 | the chunks before the overlap pass can be recovered from those after it |
| Rag.MergeBound | backend/app/domain/services/rag_service.py:106-110 | with no paragraph over the size, no chunk exceeds the size plus one |
| Rag.MergedChunkExceedsSize | backend/app/domain/services/rag_service.py:106-110 | the bound is reached: two single-line paragraphs of total length size-1 merge into one chunk of size+1 |
| Rag.LeadingEmptyMerge | backend/app/domain/services/rag_service.py:106-108 | a first paragraph exactly as long as the size makes the merge emit an empty first chunk |
| Rag.LeadingEmptyChunk | backend/app/domain/services/rag_service.py:99-114 | the same for the whole chunker, overlap included |
| Rag.DefaultsNeverFail | backend/app/domain/services/rag_service.py:81 | with the default size 1000 chunking never fails |
| Rag.RecordsShape | backend/app/domain/services/rag_service.py:36-43 | one record per chunk and embedding pair, as many as the shorter list; record i holds chunk i, embedding i, the stored metadata and the id "<document_id>_chunk_<i>" |
| Rag.ChunkIdsDistinct | backend/app/domain/services/rag_service.py:39 | distinct chunk numbers give distinct ids |
| Rag.RecordIdsUnique | backend/app/domain/services/rag_service.py:37-39 | no two records of one document share an id |
| Rag.BuildRecords | backend/app/domain/services/rag_service.py:36-43 | the loop over `enumerate(zip(…))` builds exactly `Records` |
| Rag.Collection.Insert | backend/app/domain/services/rag_service.py:46 | the records are appended to the collection |
| Rag.IndexDocument | backend/app/domain/services/rag_service.py:23-52 | an embedding failure propagates and nothing is inserted; otherwise the collection gains the records of the default chunking and the reply counts chunks, not records, with indexed true |
| Db.FilterIff | backend/app/domain/services/batch_grading_service.py:62-66 | an `eq` select returns exactly the matching rows, no more than the table holds |
| Db.UpdateThenFilter | backend/app/domain/services/batch_grading_service.py:72-75 | after an update by equality that leaves the filtered column alone, the same select returns the rows it returned before, in order, each merged with the changes |
| Db.Client.Insert | backend/app/infrastructure/database/database.py:40 | the stored row is appended to the table and returned |
| Db.Client.SelectAll | backend/app/infrastructure/database/database.py:45 | select "*" returns the table's rows; an unknown table gives none |
| Db.Client.SelectWhere | backend/app/domain/services/batch_grading_service.py:147-151 | a select with `eq` returns exactly the table's rows holding the value |
| Db.Client.UpdateWhere | backend/app/domain/services/batch_grading_service.py:138-141 | the update by equality is applied to that table alone |
| Db.FetchOneFirstOfAll | backend/app/infrastructure/database/database.py:75-83 | `fetchone` is None exactly when `fetchall` is empty, and otherwise its first row |
| Db.ClassifyIgnoresPadding | backend/app/infrastructure/database/database.py:37-48 | white space added before or after a query never changes how it is dispatched |
| Db.ClassifyIgnoresCase | backend/app/infrastructure/database/database.py:37-48 | lower-casing a query never changes how it is dispatched |
| Db.FirstToken | backend/app/infrastructure/database/database.py:58 | the first space-separated token holds no space |
| Db.TableNameShape | backend/app/infrastructure/database/database.py:54-66 | the extracted name holds no space and no upper-case letter; in the INTO form it has no parenthesis at either end; neither keyword gives "files" |
| Db.InsertIntoTable | backend/app/infrastructure/database/database.py:56-59 | "INSERT INTO " followed by a plain table name extracts that name |
| Db.FilesInsertQuery | backend/app/domain/services/file_service.py:52 | "INSERT INTO files" is an insert into the table "files" |
| Db.Database.Execute | backend/app/infrastructure/database/database.py:30-52 | no client gives "Supabase client not initialized"; an insert appends `values` to the extracted table and returns it; a select returns the whole table, ignoring the rest of the query; anything else is "Unsupported query type" with nothing changed |
| FileService.Disk.SaveFile | backend/app/domain/services/file_service.py:11-28 | the directory is made and the bytes are written at `uploads/<assignment>/<type>/<uuid>_<name>`, which is returned |
| FileService.SavedPathLayout | backend/app/domain/services/file_service.py:14-21 | for slash-free components the path is exactly uploads/<assignment_id>/<file_type>/<uuid>_<file name> |
| FileService.AbsoluteAssignmentEscapes | backend/app/domain/services/file_service.py:17 | an assignment id starting with "/" replaces the "uploads" root |
| FileService.StudentIdFor | backend/app/domain/services/file_service.py:35-37 | None for a non-student file; for a student file the text before the first '_' (which holds no '_'), or "unknown" when the name has none |
| FileService.LeadingUnderscore | backend/app/domain/services/file_service.py:37 | a student file name starting with '_' gives the empty student id |
| FileService.FirstOrEmptyIsFetchOne | backend/app/domain/services/file_service.py:53 | `data[0] if data else {}` is `fetchone()` with {} for None; a response without `data` gives {} |
| FileService.CreateFileRecord | backend/app/domain/services/file_service.py:30-57 | the record is appended to "files" and returned as stored; without a client the error is re-raised as "Failed to create file record: …" |
| BatchEndpoint.SampleCriteriaPass | backend/app/api/v1/endpoints/batch_grading.py:156-173 | criteria each written as the sample's weight/description dict all pass the criterion check |
| BatchEndpoint.FourSampleCriteriaValid | backend/app/api/v1/endpoints/batch_grading.py:156-173 | a four-criterion rubric of that shape passes validation, whatever its names, weights and descriptions |
| BatchEndpoint.SampleRubricValid | backend/app/api/v1/endpoints/batch_grading.py:156-173 | the sample rubric passes validation |
| BatchEndpoint.SampleAnswer | backend/app/api/v1/endpoints/batch_grading.py:180 | the stand-in answer starts with "Sample student answer for " and is never empty |
| BatchEndpoint.Attempt | backend/app/api/v1/endpoints/batch_grading.py:177-203 | success needs `file_name`, `created_at` and `id`, and gives the row's id with the fixed success entry |
| BatchEndpoint.Item | backend/app/api/v1/endpoints/batch_grading.py:176-213 | each handled row is keyed by its id; a graded entry is the fixed success entry; only a missing `id` or `file_name` escapes the handler |
| BatchEndpoint.Fill | backend/app/api/v1/endpoints/batch_grading.py:176-213 | the results only gain keys, and the exception that stops the loop is the failure of one row's step |
| BatchEndpoint.ItemStepKeyed | backend/app/api/v1/endpoints/batch_grading.py:190-213 | every handled file is stored under its own id, whether graded or not |
| BatchEndpoint.FillStopsOnMissingKey | backend/app/api/v1/endpoints/batch_grading.py:176-213 | the loop over the files is stopped only by a missing `id` or `file_name` |
| BatchEndpoint.FillCompletes | backend/app/api/v1/endpoints/batch_grading.py:176-213 | a loop no exception stops handles every row, and the results gain exactly the rows' ids |
| BatchEndpoint.FillRowEntries | backend/app/api/v1/endpoints/batch_grading.py:190-213 | with distinct ids and every step succeeding, each row's id holds the entry of that row's step |
| BatchEndpoint.FillKeepsOthers | backend/app/api/v1/endpoints/batch_grading.py:176-213 | a completed loop leaves every key that is no row's id with its old entry |
| BatchEndpoint.FillEntries | backend/app/api/v1/endpoints/batch_grading.py:190-213 | with distinct ids each file's id holds the entry of its own item, and other keys keep their entries |
| BatchEndpoint.FillCount | backend/app/api/v1/endpoints/batch_grading.py:111-116 | on fresh results a completed loop stores one entry per fetched file, so the status query counts error entries as completed |
| BatchEndpoint.FailureIsolated | backend/app/api/v1/endpoints/batch_grading.py:205-213 | a file whose grading raises gets an error entry with the defaults "unknown"/"Unknown", and the loop goes on |
| BatchEndpoint.GradedEntryIff | backend/app/api/v1/endpoints/batch_grading.py:183-203 | a complete row gets the stub grade (score 85, fixed rubric scores) exactly when grading succeeds; the reply itself is never stored |
| BatchEndpoint.EmptyTeacherTextFailsEveryFile | backend/app/api/v1/endpoints/batch_grading.py:183-187 | an empty teacher text gives every file an error entry with the missing-input error |
| BatchEndpoint.ProcessedOutcome | backend/app/api/v1/endpoints/batch_grading.py:146-222 | a run keeps the teacher text, the assignment and the file list, and ends 'completed' exactly when the query succeeds and nothing escapes the loop; otherwise 'error' with the query's error or a missing key |
| BatchEndpoint.Registry.Create | backend/app/api/v1/endpoints/batch_grading.py:41-65 | a new batch is stored under the id with the pages joined by "\n", no files, status 'created' and no results |
| BatchEndpoint.Registry.Assign | backend/app/api/v1/endpoints/batch_grading.py:81-97 | an unknown batch gives 404 and nothing changes; otherwise the file ids replace the list, the status becomes 'processing', and all else is kept |
| BatchEndpoint.Registry.Status | backend/app/api/v1/endpoints/batch_grading.py:108-116 | 404 exactly for an unknown batch; otherwise the status, total = number of files, completed = number of entries |
| BatchEndpoint.Registry.Results | backend/app/api/v1/endpoints/batch_grading.py:123-137 | 404 exactly for an unknown batch; otherwise the current results and the status, whatever the status |
| BatchEndpoint.Registry.ProcessBatchGrading | backend/app/api/v1/endpoints/batch_grading.py:139-222 | a KeyError escapes exactly for an unknown batch, before anything changes; otherwise nothing escapes and only that batch changes, to `Processed` of the files query |
| BatchService.ResultRow | backend/app/domain/services/batch_grading_service.py:99-135 | every appended row names the batch and the student file, has status 'completed' or 'error', and no id of its own |
| BatchService.ResultRowIff | backend/app/domain/services/batch_grading_service.py:99-135 | a row is 'completed' exactly when the keys read are present, the grading call returns and its result has score and feedback; that row carries them with [] defaults; a grading exception gives the error row with its message |
| BatchService.ErrorRowShape | backend/app/domain/services/batch_grading_service.py:127-133 | an error row has status 'error', the exception's text and `student_file.get("student_id")` |
| BatchService.TeacherRecordHasId | backend/app/domain/services/batch_grading_service.py:34-48 | the teacher's stored record always has an id, file type "teacher" and no student id |
| BatchService.SelectedRowsTruthy | backend/app/domain/services/batch_grading_service.py:68-69 | every row an `eq("id", …)` select returns is a non-empty dict, so the `if not …` guards are never taken |
| BatchService.AppendKeepsOthers | backend/app/domain/services/batch_grading_service.py:122 | an insert leaves every other table as it was |
| BatchService.AppendAddsRow | backend/app/domain/services/batch_grading_service.py:122 | an insert appends the stored row at the end of its own table |
| BatchService.RunKeepsOthers | backend/app/domain/services/batch_grading_service.py:88-135 | the student loop writes only to `batch_results` |
| BatchService.RunAbortsOnlyOnMissingFile | backend/app/domain/services/batch_grading_service.py:88-135 | the loop is aborted exactly when some id names no file, with IndexError; a grading exception never ends it |
| BatchService.ResultStepTagged | backend/app/domain/services/batch_grading_service.py:99-135 | whatever the student file, the loop's step makes a row for this batch and that student file id |
| BatchService.RunCons | backend/app/domain/services/batch_grading_service.py:90-122 | one step over a found file appends the row made for that id and file, and the loop goes on with the next id |
| BatchService.RunAppendsRows | backend/app/domain/services/batch_grading_service.py:88-135 | the loop keeps earlier rows and appends one row per handled id, in order, each for that id; a loop that is not aborted appends one row per id |
| BatchService.RunKeepsResults | backend/app/domain/services/batch_grading_service.py:88-135 | the loop keeps the earlier result rows in front and adds at most one row per id, exactly one when it is not aborted |
| BatchService.RunRowsFor | backend/app/domain/services/batch_grading_service.py:88-135 | the k-th appended row is for this batch and the k-th student file id |
| BatchService.FinishedRunAppends | backend/app/domain/services/batch_grading_service.py:88-135 | a loop that is not aborted appends exactly one row per id, in order, each for that id and this batch |
| BatchService.UpdateStatus | backend/app/domain/services/batch_grading_service.py:72-75 | updating the status by id sets it on the batch's rows and leaves other rows alone |
| BatchService.MissingBatchChangesNothing | backend/app/domain/services/batch_grading_service.py:62-66 | a missing batch raises IndexError before anything is written |
| BatchService.BatchRunSucceedsIff | backend/app/domain/services/batch_grading_service.py:57-141 | a run completes exactly when the batch, its teacher file and every student file exist; otherwise it raises IndexError, or KeyError for a batch row without `teacher_file_id` |
| BatchService.BatchRunStatus | backend/app/domain/services/batch_grading_service.py:72-141 | a found batch is 'processing' until the loop ends: an aborted run leaves it so, a finished run marks it 'completed'; other batch rows are untouched |
| BatchService.BatchRunUnfold | backend/app/domain/services/batch_grading_service.py:78-141 | once the batch and teacher file are found, the run is the loop followed by the completion update |
| BatchService.CompletedRunAppends | backend/app/domain/services/batch_grading_service.py:88-141 | a completed run appends exactly one result row per student file id, in order |
| BatchService.FilterKeepsAppended | backend/app/domain/services/batch_grading_service.py:147-151 | rows appended for a batch all survive the `batch_id` filter, after that batch's earlier rows |
| BatchService.ResultsAfterCompletedRun | backend/app/domain/services/batch_grading_service.py:143-153 | after a completed run the batch's results are its earlier rows followed by one row per student id, in order |
| BatchService.ProcessTeacherFile | backend/app/domain/services/batch_grading_service.py:13-55 | the upload is saved, its record appended to "files" and returned, then a 'created' batch row pointing at the record's id is appended to `batch_grading` |
| BatchService.ProcessBatch | backend/app/domain/services/batch_grading_service.py:57-141 | the loop computes `BatchRun`: the new tables and the exception that ended the run |
| BatchService.GetBatchResults | backend/app/domain/services/batch_grading_service.py:143-153 | returns exactly the `batch_results` rows whose `batch_id` matches, in table order |

## Left out

- The text-generation service, `json.loads`, the embedding service and the batch API's files query are pure function parameters. So a model run is deterministic: the same prompt gets the same reply for every file.
- The prompt text, the system prompt and the temperature are not modelled. A prompt is the triple (reference, student answer, rubric).
- The messages of rubric errors are kept as structured values (`RubricError`), not as text. The source formats them with `type()` and the repr of a set, whose order is not fixed.
- Upper- and lower-casing cover ASCII letters only.
- `str()` of a float, list or dict file name (`BatchEndpoint.Shown`) is a fixed placeholder.
- The database assigns ids to inserted rows. The model numbers them by position in the table (`Db.Stored`).
- The Supabase response object is modelled as a dict carrying `data`.
- The batch service calls `self.db.table`, so it is modelled with a connected client (`db.client != null`). With that client the file record always carries an id. The source's `{}` result and the KeyError on `file_record["id"]` therefore cannot arise, and are not modelled as branches.
- The `if not batch_info`, `if not teacher_file` and `if not student_file` guards are never taken (`BatchService.SelectedRowsTruthy`). They are not modelled as branches.
- `batch_status` results: the model keeps them as a `map`. Python's dict insertion order is not modelled. Neither is the equal hashing of `1`, `1.0` and `True` as keys, nor unhashable ids.
- Background tasks and concurrency: `Assign` does not itself run the grading; `ProcessBatchGrading` is a separate call.
- The 500 responses of the create and assign endpoints are not modelled. They arise from PDF extraction and the task scheduler.
- PDF text extraction, the temporary file and the uuid generator become inputs.
- The log messages and the `print` in the batch service are not modelled.
- `search_similar` and the retrieval side of the vector store are not part of this model.
- `Db.Database.Execute` with `values` left at its default of None is not modelled: a row is always given.
- The application client's timeout reply (backend/app/services/llm_client.py:52) does not contain "Error". The application revision would return it as a successful grade. The client is not part of this model, so this is only noted here.
- Neither revision of the grading service checks that the weights add up to anything. Neither scans for balanced braces in the reply: the payload is found by splitting on fences alone.
