/**
  The batch-grading endpoints of the API: a module-level table of batches,
  each created from a teacher's text, given a list of student file ids, and
  then graded one file at a time in the background. The uuid, the PDF text,
  the files query and the text-generation service are parameters.
 */
module BatchEndpoint {
  import opened Base
  import opened Json
  import opened Text
  import opened Rubric
  import opened Grading
  import opened AppGrading

  /** The `status` of a batch: 'created', 'processing', 'completed' or 'error'. */
  datatype Status = Created | Processing | Completed | Error

  /** An exception that ends one item, or the whole run when it escapes the loop. */
  datatype Failure =
    | GradingFailed(error: GradingError)
    | KeyMissing(key: string)
    | QueryFailed(message: string)

  /** One entry of `results`: the stub grade of a file, or the error its grading raised. */
  datatype Entry =
    | GradedEntry(studentId: Value, studentName: Value, fileName: Value, score: int, feedback: string,
                  gradedAt: Value, rubricScores: map<string, int>)
    | ErrorEntry(studentId: Value, studentName: Value, fileName: Value, error: Failure)

  /** A value of `batch_status`; `error` is the key set only by a failed run. */
  datatype Batch = Batch(teacherText: string, assignmentId: string, studentFiles: seq<string>,
                         status: Status, results: map<Value, Entry>, error: Option<Failure>)

  datatype HttpError = HttpError(statusCode: int, detail: string)

  const BatchNotFound := HttpError(404, "Batch not found")

  datatype Created = CreatedBatch(success: bool, batchId: string)
  datatype StatusReport = StatusReport(batchId: string, status: Status, total: nat, completed: nat)
  datatype ResultsReport = ResultsReport(batchId: string, status: Status, results: map<Value, Entry>)

  const AssignedMessage := "Students assigned to batch"
  const PageBreak := "\n"

  /** The outcome of the files query for a list of ids: the rows, or the error raised. */
  type FilesQuery = seq<string> -> Result<seq<Row>, string>

  /** A details dict of the sample rubric. */
  function SampleCriterion(weight: int, criteria: string): Value {
    Object([("weight", Int(weight)), ("criteria", Str(criteria))])
  }

  /** The rubric every file of a batch is graded against. */
  const SampleRubric := Object([
    ("Content", SampleCriterion(40, "Evaluates understanding of concepts")),
    ("Clarity", SampleCriterion(30, "Clear expression of ideas")),
    ("Organization", SampleCriterion(20, "Structured presentation of information")),
    ("Grammar", SampleCriterion(10, "Correct grammar and spelling"))
  ])

  const StubScore := 85
  const StubFeedback := "This is sample feedback from LLM."
  const StubRubricScores: map<string, int> := map["Content" := 85, "Clarity" := 80, "Organization" := 90, "Grammar" := 95]
  const SampleAnswerPrefix := "Sample student answer for "

  /** `str(v)` in an f-string, for the values a text column holds. */
  function Shown(v: Value): string {
    match v
    case Null => "None"
    case Bool(b) => if b then "True" else "False"
    case Int(i) => if i < 0 then "-" + Decimal(-i) else Decimal(i)
    case Str(s) => s
    case Float(_) => "<float>"
    case List(_) => "<list>"
    case Object(_) => "<dict>"
  }

  /** The stand-in student answer built from the file name. */
  function SampleAnswer(fileName: Value): (a: string)
    ensures StartsWith(a, SampleAnswerPrefix) && a != ""
  {
    SampleAnswerPrefix + Shown(fileName)
  }

  /** `row.get(key, default)`. */
  function Get(row: Row, key: string, default: Value): (v: Value)
    ensures key in row ==> v == row[key]
    ensures key !in row ==> v == default
  {
    if key in row then row[key] else default
  }

  /** The entry a successfully graded file gets: it depends on the row alone. */
  function SuccessEntry(row: Row): Entry
    requires "file_name" in row && "created_at" in row
  {
    GradedEntry(Get(row, "student_id", Str("unknown")), Get(row, "student_name", Str("Unknown")),
                row["file_name"], StubScore, StubFeedback, row["created_at"], StubRubricScores)
  }

  /**
    The body of the inner `try`: the file name is read, the file is graded,
    the entry is built and its key read; the first exception ends it.
   */
  function Attempt(row: Row, teacherText: string, llm: Service): (r: Result<(Value, Entry), Failure>)
    ensures r.Ok? ==> "id" in row && "file_name" in row && "created_at" in row
    ensures r.Ok? ==> r.value == (row["id"], SuccessEntry(row))
  {
    if "file_name" !in row then Err(KeyMissing("file_name"))
    else match GradeAssignment(SampleAnswer(row["file_name"]), teacherText, SampleRubric, llm)
      case Err(e) => Err(GradingFailed(e))
      case Ok(_) =>
        if "created_at" !in row then Err(KeyMissing("created_at"))
        else if "id" !in row then Err(KeyMissing("id"))
        else Ok((row["id"], SuccessEntry(row)))
  }

  /**
    One iteration of the loop: the entry stored for the file, or the
    exception that escapes the handler, which reads `id` (to log it) and
    `file_name` again.
   */
  function Item(row: Row, teacherText: string, llm: Service): (r: Result<(Value, Entry), Failure>)
    ensures r.Ok? ==> "id" in row && "file_name" in row && r.value.0 == row["id"]
    ensures r.Ok? && r.value.1.GradedEntry? ==> "created_at" in row && r.value.1 == SuccessEntry(row)
    ensures r.Err? ==> r.error == KeyMissing("id") || r.error == KeyMissing("file_name")
  {
    match Attempt(row, teacherText, llm)
    case Ok(p) => Ok(p)
    case Err(x) =>
      if "id" !in row then Err(KeyMissing("id"))
      else if "file_name" !in row then Err(KeyMissing("file_name"))
      else Ok((row["id"], ErrorEntry(Get(row, "student_id", Str("unknown")), Get(row, "student_name", Str("Unknown")),
                                     row["file_name"], x)))
  }

  /** What one iteration of the loop does with a row: an entry keyed by the row, or the exception that escapes. */
  type Step = Row -> Result<(Value, Entry), Failure>

  /** The loop's step for a batch: `Item` with the batch's teacher text and the service. */
  function ItemStep(teacherText: string, llm: Service): Step {
    row => Item(row, teacherText, llm)
  }

  /** Every entry a step stores goes under the row's `id`. */
  ghost predicate Keyed(step: Step) {
    forall row :: step(row).Ok? ==> "id" in row && step(row).value.0 == row["id"]
  }

  /** The results after the loop over `rows`, and the exception that stopped it, if any. */
  function Fill(results: map<Value, Entry>, rows: seq<Row>, step: Step): (r: (map<Value, Entry>, Option<Failure>))
    ensures results.Keys <= r.0.Keys
    ensures r.1.Some? ==> exists k :: 0 <= k < |rows| && step(rows[k]) == Err(r.1.value)
    decreases |rows|
  {
    if rows == [] then (results, None)
    else match step(rows[0])
      case Err(x) => (results, Some(x))
      case Ok(p) =>
        var r := Fill(results[p.0 := p.1], rows[1..], step);
        assert forall k :: 0 <= k < |rows[1..]| ==> rows[1..][k] == rows[k + 1];
        r
  }

  /** The batch after `process_batch_grading` with the given outcome of the files query. */
  function Processed(b: Batch, fetched: Result<seq<Row>, string>, llm: Service): Batch {
    match fetched
    case Err(m) => b.(status := Error, error := Some(QueryFailed(m)))
    case Ok(rows) =>
      var (results, failure) := Fill(b.results, rows, ItemStep(b.teacherText, llm));
      match failure
      case None => b.(results := results, status := Completed)
      case Some(x) => b.(results := results, status := Error, error := Some(x))
  }

  /** The module-level `batch_status` dict. */
  class Registry {
    var batches: map<string, Batch>

    constructor ()
      ensures batches == map[]
    {
      batches := map[];
    }

    /**
      `create_batch_grading`: stores a new batch under the generated id with
      the pages' text joined by newlines, no files, status 'created' and no
      results.
     */
    method Create(batchId: string, assignmentId: string, pages: seq<string>) returns (r: Created)
      modifies this
      ensures r == CreatedBatch(true, batchId)
      ensures batches == old(batches)[batchId := Batch(Join(pages, PageBreak), assignmentId, [], Created, map[], None)]
    {
      var teacherText := Join(pages, PageBreak);
      batches := batches[batchId := Batch(teacherText, assignmentId, [], Created, map[], None)];
      r := CreatedBatch(true, batchId);
    }

    /**
      `assign_students_to_batch`: 404 for an unknown batch; otherwise the
      file ids replace the batch's list and its status becomes 'processing',
      everything else kept. The grading run it schedules is `ProcessBatchGrading`.
     */
    method Assign(batchId: string, studentFileIds: seq<string>) returns (r: Result<string, HttpError>)
      modifies this
      ensures batchId !in old(batches) ==> r == Err(BatchNotFound) && batches == old(batches)
      ensures batchId in old(batches) ==>
                && r == Ok(AssignedMessage)
                && batches == old(batches)[batchId := old(batches)[batchId].(studentFiles := studentFileIds, status := Processing)]
    {
      if batchId !in batches {
        return Err(BatchNotFound);
      }
      var b := batches[batchId];
      batches := batches[batchId := b.(studentFiles := studentFileIds, status := Processing)];
      r := Ok(AssignedMessage);
    }

    /** `get_batch_status`: the status, the number of files and the number of entries. */
    function Status(batchId: string): (r: Result<StatusReport, HttpError>)
      reads this
      ensures batchId !in batches <==> r == Err(BatchNotFound)
      ensures r.Ok? ==> r.value.batchId == batchId && r.value.status == batches[batchId].status
      ensures r.Ok? ==> r.value.total == |batches[batchId].studentFiles| && r.value.completed == |batches[batchId].results|
    {
      if batchId !in batches then Err(BatchNotFound)
      else
        var b := batches[batchId];
        Ok(StatusReport(batchId, b.status, |b.studentFiles|, |b.results|))
    }

    /** `get_batch_results`: whatever the status, the current results and the status. */
    function Results(batchId: string): (r: Result<ResultsReport, HttpError>)
      reads this
      ensures batchId !in batches <==> r == Err(BatchNotFound)
      ensures r.Ok? ==> r.value == ResultsReport(batchId, batches[batchId].status, batches[batchId].results)
    {
      if batchId !in batches then Err(BatchNotFound)
      else if batches[batchId].status != Completed then
        Ok(ResultsReport(batchId, batches[batchId].status, batches[batchId].results))
      else Ok(ResultsReport(batchId, Completed, batches[batchId].results))
    }

    /**
      `process_batch_grading`: fetches the files, then stores one entry per
      file, in order, until an exception escapes; then the status is
      'completed', or 'error' with the exception. An unknown batch raises
      KeyError, outside the `try`, before anything changes; every other
      exception is caught and recorded, so none escapes.
     */
    method ProcessBatchGrading(batchId: string, studentFileIds: seq<string>, query: FilesQuery, llm: Service)
      returns (escaped: Option<Failure>)
      modifies this
      ensures escaped.Some? <==> batchId !in old(batches)
      ensures escaped.Some? ==> escaped.value == KeyMissing(batchId)
      ensures batchId !in old(batches) ==> batches == old(batches)
      ensures batchId in old(batches) ==>
                batches == old(batches)[batchId := Processed(old(batches)[batchId], query(studentFileIds), llm)]
    {
      if batchId !in batches {
        return Some(KeyMissing(batchId));
      }
      escaped := None;
      var b0 := batches[batchId];
      var teacherText := b0.teacherText;
      var fetched := query(studentFileIds);
      if fetched.Err? {
        batches := batches[batchId := b0.(status := Error, error := Some(QueryFailed(fetched.error)))];
        return;
      }
      var rows := fetched.value;
      ghost var start := batches;
      var i := 0;
      while i < |rows|
        invariant 0 <= i <= |rows|
        invariant batchId in batches && batches == start[batchId := batches[batchId]]
        invariant batches[batchId] == b0.(results := batches[batchId].results)
        invariant Fill(batches[batchId].results, rows[i..], ItemStep(teacherText, llm))
                  == Fill(b0.results, rows, ItemStep(teacherText, llm))
      {
        var b := batches[batchId];
        assert rows[i..][1..] == rows[i + 1..];
        var item := Item(rows[i], teacherText, llm);
        assert ItemStep(teacherText, llm)(rows[i]) == item;
        if item.Err? {
          UpdateTwice(start, batchId, b, b.(status := Error, error := Some(item.error)));
          batches := batches[batchId := b.(status := Error, error := Some(item.error))];
          return;
        }
        UpdateTwice(start, batchId, b, b.(results := b.results[item.value.0 := item.value.1]));
        batches := batches[batchId := b.(results := b.results[item.value.0 := item.value.1])];
        i := i + 1;
      }
      UpdateTwice(start, batchId, batches[batchId], batches[batchId].(status := Completed));
      batches := batches[batchId := batches[batchId].(status := Completed)];
    }
  }

  /** Storing under a key twice keeps only the second value. */
  lemma UpdateTwice<K, V>(m: map<K, V>, k: K, a: V, b: V)
    ensures m[k := a][k := b] == m[k := b]
  {
  }

  /** A details dict built by `SampleCriterion` passes the checks of one criterion. */
  lemma SampleCriterionPasses(name: string, weight: int, criteria: string)
    ensures CheckCriterion(name, SampleCriterion(weight, criteria)) == Pass
  {
    var e := [("weight", Int(weight)), ("criteria", Str(criteria))];
    assert Keys(e) == {"weight", "criteria"};
    assert Lookup(e, "criteria") == Some(Str(criteria));
  }

  /** Criteria whose details are all built by `SampleCriterion` pass the loop. */
  lemma {:induction false} SampleCriteriaPass(entries: seq<(string, Value)>)
    requires forall k :: 0 <= k < |entries| ==>
               exists w, c :: entries[k].1 == SampleCriterion(w, c)
    ensures CheckEntries(entries) == Pass
    decreases |entries|
  {
    if entries != [] {
      var w, c :| entries[0].1 == SampleCriterion(w, c);
      SampleCriterionPasses(entries[0].0, w, c);
      assert forall k :: 0 <= k < |entries[1..]| ==> entries[1..][k] == entries[k + 1];
      SampleCriteriaPass(entries[1..]);
    }
  }

  /** A rubric of four criteria built by `SampleCriterion` is valid. */
  lemma FourSampleCriteriaValid(n0: string, w0: int, c0: string, n1: string, w1: int, c1: string,
                                n2: string, w2: int, c2: string, n3: string, w3: int, c3: string)
    ensures ValidateRubric(Object([(n0, SampleCriterion(w0, c0)), (n1, SampleCriterion(w1, c1)),
                                   (n2, SampleCriterion(w2, c2)), (n3, SampleCriterion(w3, c3))])) == Pass
  {
    var e := [(n0, SampleCriterion(w0, c0)), (n1, SampleCriterion(w1, c1)),
              (n2, SampleCriterion(w2, c2)), (n3, SampleCriterion(w3, c3))];
    assert e[0].1 == SampleCriterion(w0, c0) && e[1].1 == SampleCriterion(w1, c1);
    assert e[2].1 == SampleCriterion(w2, c2) && e[3].1 == SampleCriterion(w3, c3);
    SampleCriteriaPass(e);
  }

  /** Every criterion of the sample rubric is well formed, so validation never rejects it. */
  lemma SampleRubricValid()
    ensures ValidateRubric(SampleRubric) == Pass
  {
    FourSampleCriteriaValid("Content", 40, "Evaluates understanding of concepts",
                            "Clarity", 30, "Clear expression of ideas",
                            "Organization", 20, "Structured presentation of information",
                            "Grammar", 10, "Correct grammar and spelling");
  }

  /** The ids of the rows that have one. */
  function Ids(rows: seq<Row>): (ids: set<Value>)
    ensures forall key :: key in ids <==> exists k :: 0 <= k < |rows| && "id" in rows[k] && rows[k]["id"] == key
    decreases |rows|
  {
    if rows == [] then {}
    else
      assert forall k :: 1 <= k < |rows| ==> rows[k] == rows[1..][k - 1];
      (if "id" in rows[0] then {rows[0]["id"]} else {}) + Ids(rows[1..])
  }

  /** No two fetched rows share an id. */
  predicate DistinctIds(rows: seq<Row>) {
    forall i, j :: 0 <= i < j < |rows| && "id" in rows[i] && "id" in rows[j] ==> rows[i]["id"] != rows[j]["id"]
  }

  /** `Item` keys every entry it stores by the row's `id`. */
  lemma ItemStepKeyed(teacherText: string, llm: Service)
    ensures Keyed(ItemStep(teacherText, llm))
  {
    forall row | ItemStep(teacherText, llm)(row).Ok?
      ensures "id" in row && ItemStep(teacherText, llm)(row).value.0 == row["id"]
    {
      assert ItemStep(teacherText, llm)(row) == Item(row, teacherText, llm);
    }
  }

  /** Only a missing `id` or `file_name` stops the loop over the files. */
  lemma FillStopsOnMissingKey(results: map<Value, Entry>, rows: seq<Row>, teacherText: string, llm: Service)
    ensures var r := Fill(results, rows, ItemStep(teacherText, llm));
            r.1.Some? ==> r.1.value == KeyMissing("id") || r.1.value == KeyMissing("file_name")
  {
    var r := Fill(results, rows, ItemStep(teacherText, llm));
    if r.1.Some? {
      var k :| 0 <= k < |rows| && ItemStep(teacherText, llm)(rows[k]) == Err(r.1.value);
      assert ItemStep(teacherText, llm)(rows[k]) == Item(rows[k], teacherText, llm);
    }
  }

  /** One step of the loop over a row whose item succeeds. */
  lemma FillCons(results: map<Value, Entry>, rows: seq<Row>, step: Step)
    requires rows != [] && step(rows[0]).Ok?
    ensures var p := step(rows[0]).value;
            Fill(results, rows, step) == Fill(results[p.0 := p.1], rows[1..], step)
  {
  }

  /**
    A run that no exception stops handles every row, and the results gain
    exactly the rows' ids as keys.
   */
  lemma {:induction false} FillCompletes(results: map<Value, Entry>, rows: seq<Row>, step: Step)
    requires Keyed(step) && Fill(results, rows, step).1 == None
    ensures forall k :: 0 <= k < |rows| ==> step(rows[k]).Ok?
    ensures Fill(results, rows, step).0.Keys == results.Keys + Ids(rows)
    decreases |rows|
  {
    if rows != [] {
      var p := step(rows[0]).value;
      FillCons(results, rows, step);
      FillCompletes(results[p.0 := p.1], rows[1..], step);
      assert forall k :: 1 <= k < |rows| ==> rows[k] == rows[1..][k - 1];
    }
  }

  /** Dropping the first row keeps the ids distinct, and the first id is not among the rest. */
  lemma DistinctTail(rows: seq<Row>)
    requires rows != [] && DistinctIds(rows)
    ensures DistinctIds(rows[1..])
    ensures "id" in rows[0] ==> rows[0]["id"] !in Ids(rows[1..])
  {
    var tail := rows[1..];
    forall i, j | 0 <= i < j < |tail| && "id" in tail[i] && "id" in tail[j]
      ensures tail[i]["id"] != tail[j]["id"]
    {
      assert tail[i] == rows[i + 1] && tail[j] == rows[j + 1];
    }
    if "id" in rows[0] {
      forall k | 0 <= k < |tail| && "id" in tail[k]
        ensures tail[k]["id"] != rows[0]["id"]
      {
        assert tail[k] == rows[k + 1];
      }
    }
  }

  /**
    With distinct ids, each row's id holds the entry its step made, and a
    key that is no row's id keeps its earlier entry.
   */
  lemma FillEntries(results: map<Value, Entry>, rows: seq<Row>, step: Step)
    requires Keyed(step) && Fill(results, rows, step).1 == None && DistinctIds(rows)
    ensures forall k :: 0 <= k < |rows| ==>
              && step(rows[k]).Ok?
              && rows[k]["id"] in Fill(results, rows, step).0
              && Fill(results, rows, step).0[rows[k]["id"]] == step(rows[k]).value.1
    ensures forall key :: key in results && key !in Ids(rows) ==> Fill(results, rows, step).0[key] == results[key]
  {
    FillCompletes(results, rows, step);
    FillRowEntries(results, rows, step);
    FillKeepsOthers(results, rows, step);
  }

  /** Each row's id holds the entry its step made. */
  lemma {:induction false} FillRowEntries(results: map<Value, Entry>, rows: seq<Row>, step: Step)
    requires Keyed(step) && Fill(results, rows, step).1 == None && DistinctIds(rows)
    requires forall k :: 0 <= k < |rows| ==> step(rows[k]).Ok?
    ensures forall k :: 0 <= k < |rows| ==>
              && rows[k]["id"] in Fill(results, rows, step).0
              && Fill(results, rows, step).0[rows[k]["id"]] == step(rows[k]).value.1
    decreases |rows|
  {
    if rows != [] {
      var p := step(rows[0]).value;
      var tail := rows[1..];
      DistinctTail(rows);
      FillCons(results, rows, step);
      assert forall k :: 0 <= k < |tail| ==> tail[k] == rows[k + 1];
      FillRowEntries(results[p.0 := p.1], tail, step);
      FillKeepsOthers(results[p.0 := p.1], tail, step);
    }
  }

  /** A key that is no row's id keeps its earlier entry. */
  lemma {:induction false} FillKeepsOthers(results: map<Value, Entry>, rows: seq<Row>, step: Step)
    requires Keyed(step) && Fill(results, rows, step).1 == None
    ensures forall key :: key in results && key !in Ids(rows) ==> Fill(results, rows, step).0[key] == results[key]
    decreases |rows|
  {
    if rows != [] {
      var p := step(rows[0]).value;
      FillCons(results, rows, step);
      FillKeepsOthers(results[p.0 := p.1], rows[1..], step);
    }
  }

  /**
    On a batch with no results yet, a run that completes stores as many
    entries as rows were fetched, when their ids are distinct: the status
    query then reports every fetched file as completed, errors included.
   */
  lemma {:induction false} FillCount(results: map<Value, Entry>, rows: seq<Row>, step: Step)
    requires Keyed(step) && Fill(results, rows, step).1 == None && DistinctIds(rows)
    requires Ids(rows) !! results.Keys
    ensures |Fill(results, rows, step).0| == |results| + |rows|
    decreases |rows|
  {
    FillCompletes(results, rows, step);
    if rows != [] {
      var p := step(rows[0]).value;
      var tail := rows[1..];
      DistinctTail(rows);
      FillCons(results, rows, step);
      assert p.0 in Ids(rows);
      assert Ids(tail) !! results[p.0 := p.1].Keys;
      FillCount(results[p.0 := p.1], tail, step);
    }
  }

  /**
    A run leaves the teacher text, the assignment and the file list alone
    and ends 'completed' or 'error': 'completed' exactly when the files
    query succeeded and no exception escaped the loop; an escaping exception
    is the query's or a missing `id` or `file_name`, never a grading error.
   */
  lemma ProcessedOutcome(b: Batch, fetched: Result<seq<Row>, string>, llm: Service)
    ensures var p := Processed(b, fetched, llm);
            && p.teacherText == b.teacherText && p.assignmentId == b.assignmentId && p.studentFiles == b.studentFiles
            && (p.status == Completed <==> fetched.Ok? && Fill(b.results, fetched.value, ItemStep(b.teacherText, llm)).1 == None)
            && (p.status != Completed ==> p.status == Error && p.error.Some?)
            && (p.status == Error ==> p.error.value.QueryFailed? || p.error.value == KeyMissing("id") || p.error.value == KeyMissing("file_name"))
            && (p.status == Completed ==> p.error == b.error)
            && b.results.Keys <= p.results.Keys
  {
    if fetched.Ok? {
      var step := ItemStep(b.teacherText, llm);
      var f := Fill(b.results, fetched.value, step);
      if f.1.Some? {
        var k :| 0 <= k < |fetched.value| && step(fetched.value[k]) == Err(f.1.value);
        assert step(fetched.value[k]) == Item(fetched.value[k], b.teacherText, llm);
      }
    }
  }

  /**
    One file's failure is isolated: when grading it raises and the row has
    an `id` and a `file_name`, the file gets an error entry with the
    defaults and the loop goes on with the next row.
   */
  lemma FailureIsolated(results: map<Value, Entry>, row: Row, rest: seq<Row>, teacherText: string, llm: Service)
    requires Attempt(row, teacherText, llm).Err? && "id" in row && "file_name" in row
    ensures var e := ErrorEntry(Get(row, "student_id", Str("unknown")), Get(row, "student_name", Str("Unknown")),
                                row["file_name"], Attempt(row, teacherText, llm).error);
            Fill(results, [row] + rest, ItemStep(teacherText, llm)) == Fill(results[row["id"] := e], rest, ItemStep(teacherText, llm))
  {
    assert ([row] + rest)[1..] == rest;
    assert ItemStep(teacherText, llm)(row) == Item(row, teacherText, llm);
  }

  /**
    A complete row gets an entry; it is the stub grade exactly when grading
    succeeds, which needs a non-empty teacher text and a reply that neither
    raises nor mentions "Error"; the reply itself is never stored.
   */
  lemma GradedEntryIff(row: Row, teacherText: string, llm: Service)
    requires "id" in row && "file_name" in row && "created_at" in row
    ensures Item(row, teacherText, llm).Ok?
    ensures var reply := llm(Prompt(teacherText, SampleAnswer(row["file_name"]), SampleRubric));
            Item(row, teacherText, llm).value.1.GradedEntry? <==>
              teacherText != "" && reply.Text? && !Contains(reply.text, ErrorMarker)
    ensures Item(row, teacherText, llm).value.1.GradedEntry? ==>
              && Item(row, teacherText, llm).value.1 == SuccessEntry(row)
              && SuccessEntry(row).score == StubScore && SuccessEntry(row).rubricScores == StubRubricScores
  {
    SampleRubricValid();
    GradeSucceedsIff(SampleAnswer(row["file_name"]), teacherText, SampleRubric, llm);
  }

  /** With an empty teacher text every file fails the input guard, whatever the service replies. */
  lemma EmptyTeacherTextFailsEveryFile(row: Row, llm: Service)
    requires "id" in row && "file_name" in row
    ensures Item(row, "", llm) == Ok((row["id"], ErrorEntry(Get(row, "student_id", Str("unknown")),
                                                              Get(row, "student_name", Str("Unknown")),
                                                              row["file_name"], GradingFailed(MissingInput))))
  {
    GuardComesFirst(SampleAnswer(row["file_name"]), "", SampleRubric, llm);
  }
}
