/**
  The batch-grading service over the database tables `files`,
  `batch_grading` and `batch_results`: the teacher's file is stored and a
  batch row created for it; a batch run grades each student file and
  appends one result row per student, completed or in error. The grading
  chain, the PDF text and the generated uuid are parameters.
 */
module BatchService {
  import opened Base
  import opened Json
  import opened Text
  import opened Db
  import opened FileService

  /** What `grade_submission` is called with. */
  datatype GradeRequest = GradeRequest(teacherText: Value, studentText: Value, assignmentId: Value, studentId: Value)

  /** A model of `grade_submission`: the result dict, or the message of the exception it raised. */
  type Grader = GradeRequest -> Result<Row, string>

  const BatchTable := "batch_grading"
  const FilesTable := "files"
  const ResultsTable := "batch_results"
  /** The literal text the service writes as a timestamp. */
  const NowText := "now()"

  /** `d.get(key, default)`. */
  function GetOr(row: Row, key: string, default: Value): (v: Value)
    ensures v == (if key in row then row[key] else default)
  {
    if key in row then row[key] else default
  }

  /** The batch row `process_teacher_file` inserts. */
  function BatchRow(batchId: string, assignmentId: string, teacherFileId: Value): Row {
    map["id" := Str(batchId), "assignment_id" := Str(assignmentId), "teacher_file_id" := teacherFileId,
        "status" := Str("created"), "created_at" := Str(NowText)]
  }

  /** The result row of a graded student. */
  function CompletedRow(batchId: string, studentFileId: string, studentId: Value, result: Row): Row
    requires "score" in result && "feedback" in result
  {
    map["batch_id" := Str(batchId), "student_file_id" := Str(studentFileId), "student_id" := studentId,
        "score" := result["score"], "feedback" := result["feedback"],
        "strengths" := GetOr(result, "strengths", List([])),
        "areas_for_improvement" := GetOr(result, "areas_for_improvement", List([])),
        "missed_concepts" := GetOr(result, "missed_concepts", List([])),
        "status" := Str("completed"), "graded_at" := Str(NowText)]
  }

  /** The result row of a student whose grading raised. */
  function ErrorRow(batchId: string, studentFileId: string, studentFile: Row, message: string): Row {
    map["batch_id" := Str(batchId), "student_file_id" := Str(studentFileId),
        "student_id" := GetOr(studentFile, "student_id", Null),
        "status" := Str("error"), "error_message" := Str(message)]
  }

  /**
    The `try` block for one student: the keys read for the call, the call,
    and the keys read from its result; the first exception ends it.
   */
  function Attempt(batchId: string, studentFileId: string, studentFile: Row, teacherFile: Row, batchInfo: Row,
                   grader: Grader): Result<Row, string>
  {
    if "text_content" !in teacherFile then Err(KeyErrorText("text_content"))
    else if "text_content" !in studentFile then Err(KeyErrorText("text_content"))
    else if "assignment_id" !in batchInfo then Err(KeyErrorText("assignment_id"))
    else if "student_id" !in studentFile then Err(KeyErrorText("student_id"))
    else
      var request := GradeRequest(teacherFile["text_content"], studentFile["text_content"],
                                  batchInfo["assignment_id"], studentFile["student_id"]);
      match grader(request)
      case Err(m) => Err(m)
      case Ok(result) =>
        if "score" !in result then Err(KeyErrorText("score"))
        else if "feedback" !in result then Err(KeyErrorText("feedback"))
        else Ok(CompletedRow(batchId, studentFileId, studentFile["student_id"], result))
  }

  /** The row appended for one student: the completed row, or the error row with the exception's text. */
  function ResultRow(batchId: string, studentFileId: string, studentFile: Row, teacherFile: Row, batchInfo: Row,
                     grader: Grader): (row: Row)
    ensures "batch_id" in row && row["batch_id"] == Str(batchId)
    ensures "student_file_id" in row && row["student_file_id"] == Str(studentFileId)
    ensures "status" in row && (row["status"] == Str("completed") || row["status"] == Str("error"))
    ensures "id" !in row
  {
    match Attempt(batchId, studentFileId, studentFile, teacherFile, batchInfo, grader)
    case Ok(row) => row
    case Err(m) => ErrorRow(batchId, studentFileId, studentFile, m)
  }

  /** `table(t).insert(row).execute()` on the tables. */
  function Append(t: Tables, table: string, row: Row): Tables {
    t[table := Rows(t, table) + [Stored(row, |Rows(t, table)|)]]
  }

  /** What one iteration of the loop appends for a student file id and its file. */
  type RowFor = (string, Row) -> Row

  /** The loop's step for a batch: `ResultRow` with the batch, its teacher file and the grading call. */
  function ResultStep(batchId: string, teacherFile: Row, batchInfo: Row, grader: Grader): RowFor {
    (studentFileId, studentFile) => ResultRow(batchId, studentFileId, studentFile, teacherFile, batchInfo, grader)
  }

  /**
    The loop over the student file ids: each id's file is selected and its
    result row appended; an id with no file raises IndexError on `.data[0]`
    and ends the run with the rows appended so far.
   */
  function Run(t: Tables, ids: seq<string>, rowFor: RowFor): (Tables, Option<string>)
    decreases |ids|
  {
    if ids == [] then (t, None)
    else
      var selected := Filter(Rows(t, FilesTable), "id", Str(ids[0]));
      if selected == [] then (t, Some(IndexErrorText))
      else Run(Append(t, ResultsTable, rowFor(ids[0], selected[0])), ids[1..], rowFor)
  }

  const ProcessingChange: Row := map["status" := Str("processing")]
  const CompletedChange: Row := map["status" := Str("completed"), "completed_at" := Str(NowText)]

  /**
    `process_batch`: the tables afterwards and the exception that ended it,
    if any. The batch and the teacher file are selected with `.data[0]`, so a
    missing one raises IndexError; the batch is 'processing' before any
    student is graded and 'completed' after the loop.
   */
  function BatchRun(t: Tables, batchId: string, ids: seq<string>, grader: Grader): (Tables, Option<string>) {
    var found := Filter(Rows(t, BatchTable), "id", Str(batchId));
    if found == [] then (t, Some(IndexErrorText))
    else
      var batchInfo := found[0];
      var t1 := t[BatchTable := Update(Rows(t, BatchTable), "id", Str(batchId), ProcessingChange)];
      if "teacher_file_id" !in batchInfo then (t1, Some(KeyErrorText("teacher_file_id")))
      else
        var teacher := Filter(Rows(t1, FilesTable), "id", batchInfo["teacher_file_id"]);
        if teacher == [] then (t1, Some(IndexErrorText))
        else
          var (t2, failure) := Run(t1, ids, ResultStep(batchId, teacher[0], batchInfo, grader));
          if failure.Some? then (t2, failure)
          else (t2[BatchTable := Update(Rows(t2, BatchTable), "id", Str(batchId), CompletedChange)], None)
  }

  /**
    `process_teacher_file`: saves the upload, stores its file record, and
    inserts a batch row in status 'created' that points at the record's id;
    returns the record. With a connected client the record is always
    stored and always has an id, so neither of its exceptions arises.
   */
  method ProcessTeacherFile(db: Database, disk: Disk, content: seq<byte>, fileName: string, mimeType: string,
                            assignmentId: string, batchId: string, uuid: string, textContent: string, now: string)
    returns (r: Row)
    requires db.client != null
    modifies db.client, disk
    ensures var path := SavedPath(assignmentId, "teacher", uuid, fileName);
            var tables := old(db.client.tables);
            var record := Stored(FileData(fileName, path, "teacher", 0, mimeType, assignmentId, textContent, now),
                                 |Rows(tables, FilesTable)|);
            && disk.files == old(disk.files)[path := content]
            && r == record
            && db.client.tables == Append(Append(tables, FilesTable, FileData(fileName, path, "teacher", 0, mimeType,
                                                                         assignmentId, textContent, now)),
                                          BatchTable, BatchRow(batchId, assignmentId, record["id"]))
  {
    var path := disk.SaveFile(content, fileName, "teacher", assignmentId, uuid);
    var created := CreateFileRecord(db, fileName, path, "teacher", 0, mimeType, assignmentId, textContent, now);
    var record := created.value;
    var inserted := db.client.Insert(BatchTable, BatchRow(batchId, assignmentId, record["id"]));
    r := record;
  }

  /**
    `process_batch`, over the client's tables: the status updates, one
    appended result row per student, and the exception that aborts the run.
   */
  method ProcessBatch(db: Database, batchId: string, ids: seq<string>, grader: Grader) returns (failure: Option<string>)
    requires db.client != null
    modifies db.client
    ensures (db.client.tables, failure) == BatchRun(old(db.client.tables), batchId, ids, grader)
  {
    var client := db.client;
    var found := client.SelectWhere(BatchTable, "id", Str(batchId));
    if found == [] {
      return Some(IndexErrorText);
    }
    var batchInfo := found[0];
    client.UpdateWhere(BatchTable, "id", Str(batchId), ProcessingChange);
    if "teacher_file_id" !in batchInfo {
      return Some(KeyErrorText("teacher_file_id"));
    }
    var teacher := client.SelectWhere(FilesTable, "id", batchInfo["teacher_file_id"]);
    if teacher == [] {
      return Some(IndexErrorText);
    }
    var teacherFile := teacher[0];
    ghost var t1 := client.tables;
    var i := 0;
    while i < |ids|
      invariant 0 <= i <= |ids|
      invariant Run(client.tables, ids[i..], ResultStep(batchId, teacherFile, batchInfo, grader))
                == Run(t1, ids, ResultStep(batchId, teacherFile, batchInfo, grader))
    {
      assert ids[i..][1..] == ids[i + 1..];
      var selected := client.SelectWhere(FilesTable, "id", Str(ids[i]));
      if selected == [] {
        return Some(IndexErrorText);
      }
      var row := ResultRow(batchId, ids[i], selected[0], teacherFile, batchInfo, grader);
      assert ResultStep(batchId, teacherFile, batchInfo, grader)(ids[i], selected[0]) == row;
      var inserted := client.Insert(ResultsTable, row);
      i := i + 1;
    }
    client.UpdateWhere(BatchTable, "id", Str(batchId), CompletedChange);
    failure := None;
  }

  /** `get_batch_results`: the result rows of the batch, in table order. */
  method GetBatchResults(db: Database, batchId: string) returns (rows: seq<Row>)
    requires db.client != null
    ensures rows == Filter(Rows(db.client.tables, ResultsTable), "batch_id", Str(batchId))
    ensures forall r :: r in rows <==> r in Rows(db.client.tables, ResultsTable) && Matches(r, "batch_id", Str(batchId))
  {
    rows := db.client.SelectWhere(ResultsTable, "batch_id", Str(batchId));
  }

  /**
    Every row an `eq("id", …)` select returns holds an id, so it is a
    non-empty dict: the `if not batch_info`, `if not teacher_file` and
    `if not student_file` guards are never taken.
   */
  lemma SelectedRowsTruthy(rows: seq<Row>, value: Value)
    ensures forall r :: r in Filter(rows, "id", value) ==> "id" in r && r != map[]
  {
    FilterIff(rows, "id", value);
  }

  /** The file record of the teacher's file always has an id and no student id. */
  lemma TeacherRecordHasId(fileName: string, path: string, mimeType: string, assignmentId: string, textContent: string,
                           now: string, position: nat)
    ensures var record := Stored(FileData(fileName, path, "teacher", 0, mimeType, assignmentId, textContent, now), position);
            && "id" in record && record["id"] == Str(Decimal(position))
            && record["student_id"] == Null && record["file_type"] == Str("teacher")
  {
    assert "teacher" != StudentType;
  }

  /**
    A student's row is 'completed' exactly when the keys the call reads are
    present, the grading call returns and its result has a score and feedback;
    the row then carries them, with empty lists for the missing optional
    fields. Otherwise it is the error row with the exception's text.
   */
  lemma ResultRowIff(batchId: string, studentFileId: string, studentFile: Row, teacherFile: Row, batchInfo: Row,
                     grader: Grader)
    ensures var row := ResultRow(batchId, studentFileId, studentFile, teacherFile, batchInfo, grader);
            var ready := "text_content" in teacherFile && "text_content" in studentFile
                         && "assignment_id" in batchInfo && "student_id" in studentFile;
            var result := if ready then grader(GradeRequest(teacherFile["text_content"], studentFile["text_content"],
                                                           batchInfo["assignment_id"], studentFile["student_id"]))
                          else Err("");
            && (row["status"] == Str("completed") <==>
                  ready && result.Ok? && "score" in result.value && "feedback" in result.value)
            && (row["status"] == Str("completed") ==>
                  && row["score"] == result.value["score"] && row["feedback"] == result.value["feedback"]
                  && row["student_id"] == studentFile["student_id"]
                  && row["strengths"] == GetOr(result.value, "strengths", List([])))
            && (ready && result.Err? ==> row == ErrorRow(batchId, studentFileId, studentFile, result.error))
  {
  }

  /** An error row records the status 'error' and the exception's text. */
  lemma ErrorRowShape(batchId: string, studentFileId: string, studentFile: Row, message: string)
    ensures var row := ErrorRow(batchId, studentFileId, studentFile, message);
            row["status"] == Str("error") && row["error_message"] == Str(message)
            && row["student_id"] == GetOr(studentFile, "student_id", Null)
  {
  }

  /** Appending leaves the other tables as they were. */
  lemma AppendKeepsOthers(t: Tables, table: string, row: Row)
    ensures forall name :: name != table ==> Rows(Append(t, table, row), name) == Rows(t, name)
  {
  }

  /** Appending adds the stored row at the end of its table. */
  lemma AppendAddsRow(t: Tables, table: string, row: Row)
    ensures Rows(Append(t, table, row), table) == Rows(t, table) + [Stored(row, |Rows(t, table)|)]
  {
  }

  /** A run writes only to `batch_results`. */
  lemma {:induction false} RunKeepsOthers(t: Tables, ids: seq<string>, rowFor: RowFor)
    ensures forall name :: name != ResultsTable ==> Rows(Run(t, ids, rowFor).0, name) == Rows(t, name)
    decreases |ids|
  {
    if ids != [] && Filter(Rows(t, FilesTable), "id", Str(ids[0])) != [] {
      var row := rowFor(ids[0], Filter(Rows(t, FilesTable), "id", Str(ids[0]))[0]);
      AppendKeepsOthers(t, ResultsTable, row);
      RunKeepsOthers(Append(t, ResultsTable, row), ids[1..], rowFor);
    }
  }

  /** Every id names a stored file. */
  predicate AllFound(t: Tables, ids: seq<string>) {
    forall k :: 0 <= k < |ids| ==> Filter(Rows(t, FilesTable), "id", Str(ids[k])) != []
  }

  /**
    Failure is isolated to the student: a run is aborted only by an id that
    names no file, with IndexError; a grading exception never ends it.
   */
  lemma {:induction false} RunAbortsOnlyOnMissingFile(t: Tables, ids: seq<string>, rowFor: RowFor)
    ensures var f := Run(t, ids, rowFor).1;
            && (f.None? <==> AllFound(t, ids))
            && (f.Some? ==> f.value == IndexErrorText)
    decreases |ids|
  {
    if ids != [] && Filter(Rows(t, FilesTable), "id", Str(ids[0])) != [] {
      var row := rowFor(ids[0], Filter(Rows(t, FilesTable), "id", Str(ids[0]))[0]);
      var t' := Append(t, ResultsTable, row);
      AppendKeepsOthers(t, ResultsTable, row);
      assert Rows(t', FilesTable) == Rows(t, FilesTable);
      RunAbortsOnlyOnMissingFile(t', ids[1..], rowFor);
      assert forall k :: 1 <= k < |ids| ==> ids[k] == ids[1..][k - 1];
      assert AllFound(t, ids) <==> AllFound(t', ids[1..]);
    }
  }

  /** The row appended for the id at a position holds the batch id, the student file id and a status. */
  predicate ResultFor(row: Row, batchId: string, studentFileId: string) {
    && Matches(row, "batch_id", Str(batchId))
    && Matches(row, "student_file_id", Str(studentFileId))
    && "status" in row
    && (row["status"] == Str("completed") || row["status"] == Str("error"))
  }

  /** Every row a step makes is for this batch and the step's student file id. */
  ghost predicate Tagged(rowFor: RowFor, batchId: string) {
    forall studentFileId, studentFile :: ResultFor(rowFor(studentFileId, studentFile), batchId, studentFileId)
  }

  /** `ResultRow` tags its row with the batch and the student file id. */
  lemma ResultStepTagged(batchId: string, teacherFile: Row, batchInfo: Row, grader: Grader)
    ensures Tagged(ResultStep(batchId, teacherFile, batchInfo, grader), batchId)
  {
    var step := ResultStep(batchId, teacherFile, batchInfo, grader);
    forall studentFileId, studentFile
      ensures ResultFor(step(studentFileId, studentFile), batchId, studentFileId)
    {
      assert step(studentFileId, studentFile) == ResultRow(batchId, studentFileId, studentFile, teacherFile, batchInfo, grader);
    }
  }

  /** Storing a row adds only its id, so it stays the row for the same batch and student file. */
  lemma StoredKeepsResultFor(row: Row, position: nat, batchId: string, studentFileId: string)
    requires ResultFor(row, batchId, studentFileId)
    ensures ResultFor(Stored(row, position), batchId, studentFileId)
  {
  }

  /** One step of the loop over an id that names a file. */
  lemma RunCons(t: Tables, ids: seq<string>, rowFor: RowFor)
    requires ids != [] && Filter(Rows(t, FilesTable), "id", Str(ids[0])) != []
    ensures var row := rowFor(ids[0], Filter(Rows(t, FilesTable), "id", Str(ids[0]))[0]);
            Run(t, ids, rowFor) == Run(Append(t, ResultsTable, row), ids[1..], rowFor)
  {
  }

  /**
    A run keeps the earlier result rows and appends one row per handled id,
    in order, each for that id and this batch; a run that is not aborted
    appends exactly one row per id.
   */
  lemma RunAppendsRows(t: Tables, batchId: string, ids: seq<string>, rowFor: RowFor)
    requires Tagged(rowFor, batchId)
    ensures var before := Rows(t, ResultsTable);
            var after := Rows(Run(t, ids, rowFor).0, ResultsTable);
            && |before| <= |after| <= |before| + |ids|
            && after[..|before|] == before
            && (forall k :: 0 <= k < |after| - |before| ==> ResultFor(after[|before| + k], batchId, ids[k]))
            && (Run(t, ids, rowFor).1.None? ==> |after| == |before| + |ids|)
  {
    RunKeepsResults(t, ids, rowFor);
    RunRowsFor(t, batchId, ids, rowFor);
  }

  /** The earlier result rows stay in front, and at most one row per id follows them, exactly one when not aborted. */
  lemma {:induction false} RunKeepsResults(t: Tables, ids: seq<string>, rowFor: RowFor)
    ensures var before := Rows(t, ResultsTable);
            var after := Rows(Run(t, ids, rowFor).0, ResultsTable);
            && |before| <= |after| <= |before| + |ids|
            && after[..|before|] == before
            && (Run(t, ids, rowFor).1.None? ==> |after| == |before| + |ids|)
    decreases |ids|
  {
    if ids != [] && Filter(Rows(t, FilesTable), "id", Str(ids[0])) != [] {
      var row := rowFor(ids[0], Filter(Rows(t, FilesTable), "id", Str(ids[0]))[0]);
      var t' := Append(t, ResultsTable, row);
      RunCons(t, ids, rowFor);
      AppendAddsRow(t, ResultsTable, row);
      RunKeepsResults(t', ids[1..], rowFor);
      var before := Rows(t, ResultsTable);
      var mid := Rows(t', ResultsTable);
      var after := Rows(Run(t', ids[1..], rowFor).0, ResultsTable);
      assert after[..|before|] == mid[..|before|] == before;
    }
  }

  /** Each row the run appends is for its id and this batch. */
  lemma {:induction false} RunRowsFor(t: Tables, batchId: string, ids: seq<string>, rowFor: RowFor)
    requires Tagged(rowFor, batchId)
    ensures var before := Rows(t, ResultsTable);
            var after := Rows(Run(t, ids, rowFor).0, ResultsTable);
            forall k :: 0 <= k < |ids| && |before| + k < |after| ==> ResultFor(after[|before| + k], batchId, ids[k])
    decreases |ids|
  {
    if ids != [] && Filter(Rows(t, FilesTable), "id", Str(ids[0])) != [] {
      var row := rowFor(ids[0], Filter(Rows(t, FilesTable), "id", Str(ids[0]))[0]);
      var t' := Append(t, ResultsTable, row);
      RunCons(t, ids, rowFor);
      var before := Rows(t, ResultsTable);
      var mid := Rows(t', ResultsTable);
      var after := Rows(Run(t', ids[1..], rowFor).0, ResultsTable);
      AppendAddsRow(t, ResultsTable, row);
      assert |mid| == |before| + 1 && mid[|before|] == Stored(row, |before|);
      RunKeepsResults(t', ids[1..], rowFor);
      assert |mid| <= |after| && after[..|mid|] == mid;
      RunRowsFor(t', batchId, ids[1..], rowFor);
      assert ResultFor(after[|before|], batchId, ids[0]) by {
        StoredKeepsResultFor(row, |before|, batchId, ids[0]);
        assert after[|before|] == after[..|mid|][|before|];
      }
      forall k | 1 <= k < |ids| && |before| + k < |after|
        ensures ResultFor(after[|before| + k], batchId, ids[k])
      {
        assert |before| + k == |mid| + (k - 1);
        assert ids[1..][k - 1] == ids[k];
      }
    }
  }

  /** Every batch row with the id holds the status. */
  predicate BatchStatus(t: Tables, batchId: string, status: string) {
    forall k :: 0 <= k < |Rows(t, BatchTable)| && Matches(Rows(t, BatchTable)[k], "id", Str(batchId)) ==>
      Matches(Rows(t, BatchTable)[k], "status", Str(status))
  }

  /** An update of the status by id sets it on the rows with the id and leaves the other rows alone. */
  lemma UpdateStatus(rows: seq<Row>, batchId: string, changes: Row)
    requires "status" in changes && "id" !in changes
    ensures var r := Update(rows, "id", Str(batchId), changes);
            && (forall k :: 0 <= k < |r| && Matches(r[k], "id", Str(batchId)) ==> Matches(r[k], "status", changes["status"]))
            && (forall k :: 0 <= k < |r| && !Matches(rows[k], "id", Str(batchId)) ==> r[k] == rows[k])
  {
  }

  /** A run over a missing batch raises IndexError and changes nothing. */
  lemma MissingBatchChangesNothing(t: Tables, batchId: string, ids: seq<string>, grader: Grader)
    requires Filter(Rows(t, BatchTable), "id", Str(batchId)) == []
    ensures BatchRun(t, batchId, ids, grader) == (t, Some(IndexErrorText))
  {
  }

  /**
    A run completes exactly when the batch, its teacher file and every
    student file exist; otherwise it raises IndexError or, for a batch row
    without `teacher_file_id`, KeyError.
   */
  lemma BatchRunSucceedsIff(t: Tables, batchId: string, ids: seq<string>, grader: Grader)
    ensures var found := Filter(Rows(t, BatchTable), "id", Str(batchId));
            BatchRun(t, batchId, ids, grader).1.None? <==>
              && found != [] && "teacher_file_id" in found[0]
              && Filter(Rows(t, FilesTable), "id", found[0]["teacher_file_id"]) != []
              && AllFound(t, ids)
    ensures var f := BatchRun(t, batchId, ids, grader).1;
            f.Some? ==> f.value == IndexErrorText || f.value == KeyErrorText("teacher_file_id")
  {
    var found := Filter(Rows(t, BatchTable), "id", Str(batchId));
    if found != [] && "teacher_file_id" in found[0] {
      var t1 := t[BatchTable := Update(Rows(t, BatchTable), "id", Str(batchId), ProcessingChange)];
      assert Rows(t1, FilesTable) == Rows(t, FilesTable);
      var teacher := Filter(Rows(t1, FilesTable), "id", found[0]["teacher_file_id"]);
      if teacher != [] {
        RunAbortsOnlyOnMissingFile(t1, ids, ResultStep(batchId, teacher[0], found[0], grader));
      }
    }
  }

  /**
    Once the batch is found its rows are 'processing' until the loop ends:
    an aborted run leaves them so, a finished run marks them 'completed'.
    The other batch rows are untouched.
   */
  lemma BatchRunStatus(t: Tables, batchId: string, ids: seq<string>, grader: Grader)
    requires Filter(Rows(t, BatchTable), "id", Str(batchId)) != []
    ensures var r := BatchRun(t, batchId, ids, grader);
            && (r.1.None? ==> BatchStatus(r.0, batchId, "completed"))
            && (r.1.Some? ==> BatchStatus(r.0, batchId, "processing"))
            && |Rows(r.0, BatchTable)| == |Rows(t, BatchTable)|
            && (forall k :: 0 <= k < |Rows(t, BatchTable)| && !Matches(Rows(t, BatchTable)[k], "id", Str(batchId)) ==>
                  Rows(r.0, BatchTable)[k] == Rows(t, BatchTable)[k])
  {
    var found := Filter(Rows(t, BatchTable), "id", Str(batchId));
    var rows := Rows(t, BatchTable);
    var t1 := t[BatchTable := Update(rows, "id", Str(batchId), ProcessingChange)];
    UpdateStatus(rows, batchId, ProcessingChange);
    if "teacher_file_id" in found[0] {
      var teacher := Filter(Rows(t1, FilesTable), "id", found[0]["teacher_file_id"]);
      if teacher != [] {
        RunKeepsOthers(t1, ids, ResultStep(batchId, teacher[0], found[0], grader));
        var t2 := Run(t1, ids, ResultStep(batchId, teacher[0], found[0], grader)).0;
        assert Rows(t2, BatchTable) == Rows(t1, BatchTable);
        UpdateStatus(Rows(t2, BatchTable), batchId, CompletedChange);
      }
    }
  }

  /** The tables and the teacher file a run over a found batch grades with. */
  function Processing(t: Tables, batchId: string): Tables {
    t[BatchTable := Update(Rows(t, BatchTable), "id", Str(batchId), ProcessingChange)]
  }

  /** `BatchRun` once the batch and its teacher file are found: the loop, then the completion update. */
  lemma BatchRunUnfold(t: Tables, batchId: string, ids: seq<string>, grader: Grader, batchInfo: Row, teacherFile: Row)
    requires var found := Filter(Rows(t, BatchTable), "id", Str(batchId));
             found != [] && batchInfo == found[0] && "teacher_file_id" in batchInfo
    requires var teacher := Filter(Rows(Processing(t, batchId), FilesTable), "id", batchInfo["teacher_file_id"]);
             teacher != [] && teacherFile == teacher[0]
    ensures var r := Run(Processing(t, batchId), ids, ResultStep(batchId, teacherFile, batchInfo, grader));
            BatchRun(t, batchId, ids, grader)
            == if r.1.Some? then r else (r.0[BatchTable := Update(Rows(r.0, BatchTable), "id", Str(batchId), CompletedChange)], None)
  {
  }

  /** `after` is `before` followed by one result row per id, in order, each for that id and this batch. */
  ghost predicate AppendsResults(before: seq<Row>, after: seq<Row>, batchId: string, ids: seq<string>) {
    && |after| == |before| + |ids|
    && after[..|before|] == before
    && forall k :: 0 <= k < |ids| ==> ResultFor(after[|before| + k], batchId, ids[k])
  }

  /** A completed run appends one result row per student file id, in order, to `batch_results`. */
  lemma CompletedRunAppends(t: Tables, batchId: string, ids: seq<string>, grader: Grader)
    requires BatchRun(t, batchId, ids, grader).1.None?
    ensures AppendsResults(Rows(t, ResultsTable), Rows(BatchRun(t, batchId, ids, grader).0, ResultsTable), batchId, ids)
  {
    var found := Filter(Rows(t, BatchTable), "id", Str(batchId));
    var t1 := Processing(t, batchId);
    BatchRunSucceedsIff(t, batchId, ids, grader);
    assert Rows(t1, FilesTable) == Rows(t, FilesTable) && Rows(t1, ResultsTable) == Rows(t, ResultsTable);
    var teacher := Filter(Rows(t1, FilesTable), "id", found[0]["teacher_file_id"]);
    var step := ResultStep(batchId, teacher[0], found[0], grader);
    assert Run(t1, ids, step).1.None? && Rows(BatchRun(t, batchId, ids, grader).0, ResultsTable) == Rows(Run(t1, ids, step).0, ResultsTable) by {
      BatchRunUnfold(t, batchId, ids, grader, found[0], teacher[0]);
    }
    ResultStepTagged(batchId, teacher[0], found[0], grader);
    FinishedRunAppends(t1, batchId, ids, step);
  }

  /** A run that is not aborted appends exactly one row per id, in order, each for that id and this batch. */
  lemma FinishedRunAppends(t: Tables, batchId: string, ids: seq<string>, rowFor: RowFor)
    requires Tagged(rowFor, batchId) && Run(t, ids, rowFor).1.None?
    ensures AppendsResults(Rows(t, ResultsTable), Rows(Run(t, ids, rowFor).0, ResultsTable), batchId, ids)
  {
    RunAppendsRows(t, batchId, ids, rowFor);
  }


  /**
    After a completed run the batch's results are its earlier rows followed
    by exactly one row per student file id, in order: what
    `get_batch_results` then returns.
   */
  lemma ResultsAfterCompletedRun(t: Tables, batchId: string, ids: seq<string>, grader: Grader)
    requires BatchRun(t, batchId, ids, grader).1.None?
    ensures AppendsResults(Filter(Rows(t, ResultsTable), "batch_id", Str(batchId)),
                           Filter(Rows(BatchRun(t, batchId, ids, grader).0, ResultsTable), "batch_id", Str(batchId)),
                           batchId, ids)
  {
    CompletedRunAppends(t, batchId, ids, grader);
    FilterKeepsAppended(Rows(t, ResultsTable), Rows(BatchRun(t, batchId, ids, grader).0, ResultsTable), batchId, ids);
  }

  /** Rows appended for a batch survive the `batch_id` filter, after the batch's earlier rows. */
  lemma FilterKeepsAppended(before: seq<Row>, all: seq<Row>, batchId: string, ids: seq<string>)
    requires AppendsResults(before, all, batchId, ids)
    ensures AppendsResults(Filter(before, "batch_id", Str(batchId)), Filter(all, "batch_id", Str(batchId)), batchId, ids)
  {
    var added := all[|before|..];
    assert all == before + added;
    forall k | 0 <= k < |added|
      ensures Matches(added[k], "batch_id", Str(batchId))
    {
      assert added[k] == all[|before| + k];
      assert ResultFor(all[|before| + k], batchId, ids[k]);
    }
    FilterKeepsAll(added, "batch_id", Str(batchId));
    FilterAppend(before, added, "batch_id", Str(batchId));
    var kept := Filter(before, "batch_id", Str(batchId));
    var after := Filter(all, "batch_id", Str(batchId));
    assert after == kept + added;
    assert forall k :: 0 <= k < |ids| ==> after[|kept| + k] == added[k];
  }

}
