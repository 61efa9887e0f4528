/**
  The file service: where an uploaded file is written, and the database
  record made for it, with the student id taken from the file name.
  The random uuid, the clock and the uploaded bytes are parameters.
 */
module FileService {
  import opened Base
  import opened Json
  import opened Text
  import opened Db

  newtype byte = x: int | 0 <= x < 256

  /** `os.path.join(path, b)` on POSIX: an absolute component replaces the path. */
  function PathJoin(path: string, b: string): string {
    if StartsWith(b, "/") then b
    else if path == "" || EndsWith(path, "/") then path + b
    else path + "/" + b
  }

  const UploadRoot := "uploads"

  /** `os.path.join("uploads", assignment_id, file_type)`. */
  function UploadDir(assignmentId: string, fileType: string): string {
    PathJoin(PathJoin(UploadRoot, assignmentId), fileType)
  }

  /** The path `save_file` writes to: the directory, then "<uuid>_<file name>". */
  function SavedPath(assignmentId: string, fileType: string, uuid: string, fileName: string): string {
    PathJoin(UploadDir(assignmentId, fileType), uuid + "_" + fileName)
  }

  /** A path component that neither starts nor ends with a slash. */
  predicate Component(s: string) {
    s != "" && s[0] != '/' && s[|s| - 1] != '/'
  }

  lemma JoinComponent(path: string, b: string)
    requires path != "" && path[|path| - 1] != '/' && b != "" && b[0] != '/'
    ensures PathJoin(path, b) == path + "/" + b
  {
  }

  /**
    For ordinary components the file lands at
    uploads/<assignment_id>/<file_type>/<uuid>_<file name>.
   */
  lemma SavedPathLayout(assignmentId: string, fileType: string, uuid: string, fileName: string)
    requires Component(assignmentId) && Component(fileType) && uuid != "" && uuid[0] != '/'
    ensures SavedPath(assignmentId, fileType, uuid, fileName)
            == UploadRoot + "/" + assignmentId + "/" + fileType + "/" + uuid + "_" + fileName
  {
    JoinComponent(UploadRoot, assignmentId);
    var d1 := UploadRoot + "/" + assignmentId;
    assert d1[|d1| - 1] == assignmentId[|assignmentId| - 1];
    JoinComponent(d1, fileType);
    var d2 := d1 + "/" + fileType;
    assert d2[|d2| - 1] == fileType[|fileType| - 1];
    var u := uuid + "_" + fileName;
    assert u[0] == uuid[0];
    JoinComponent(d2, u);
  }

  /** An absolute assignment id is not kept under uploads/: the directory starts at that id. */
  lemma AbsoluteAssignmentEscapes(assignmentId: string, fileType: string)
    requires StartsWith(assignmentId, "/")
    ensures UploadDir(assignmentId, fileType) == PathJoin(assignmentId, fileType)
  {
  }

  /** The disk the uploads are written to: the files by path and the directories made. */
  class Disk {
    var files: map<string, seq<byte>>
    var dirs: set<string>

    constructor ()
      ensures files == map[] && dirs == {}
    {
      files := map[];
      dirs := {};
    }

    /**
      `save_file`: makes the directory, writes the bytes at the saved path
      (replacing any file there) and returns the path.
     */
    method SaveFile(content: seq<byte>, fileName: string, fileType: string, assignmentId: string, uuid: string)
      returns (path: string)
      modifies this
      ensures path == SavedPath(assignmentId, fileType, uuid, fileName)
      ensures dirs == old(dirs) + {UploadDir(assignmentId, fileType)}
      ensures files == old(files)[path := content]
    {
      var dir := PathJoin(PathJoin(UploadRoot, assignmentId), fileType);
      dirs := dirs + {dir};
      path := PathJoin(dir, uuid + "_" + fileName);
      files := files[path := content];
    }
  }

  const StudentType := "student"
  const UnknownStudent := "unknown"

  /**
    The student id of a file: none for a non-student file; for a student
    file, the text before the first '_' of its name (empty for a leading
    '_'), or "unknown" when the name has no '_'.
   */
  function StudentIdFor(fileName: string, fileType: string): (id: Value)
    ensures fileType != StudentType ==> id == Null
    ensures fileType == StudentType && !Contains(fileName, "_") ==> id == Str(UnknownStudent)
    ensures fileType == StudentType && Contains(fileName, "_") ==>
              && id.Str?
              && id.s == fileName[..Find(fileName, "_").value]
              && !Contains(id.s, "_")
  {
    if fileType == StudentType then
      if Contains(fileName, "_") then
        SplitFirst(fileName, "_");
        Str(Split(fileName, "_")[0])
      else Str(UnknownStudent)
    else Null
  }

  /** A name starting with '_' gives the empty student id. */
  lemma LeadingUnderscore(fileName: string)
    requires StartsWith(fileName, "_")
    ensures StudentIdFor(fileName, StudentType) == Str("")
  {
    assert OccursAt(fileName, "_", 0);
  }

  /** The record `create_file_record` inserts, with the clock's ISO time as `created_at`. */
  function FileData(fileName: string, filePath: string, fileType: string, fileSize: int, mimeType: string,
                    assignmentId: string, textContent: string, now: string): Row
  {
    map[
      "file_name" := Str(fileName),
      "file_path" := Str(filePath),
      "file_type" := Str(fileType),
      "file_size" := Int(fileSize),
      "mime_type" := Str(mimeType),
      "assignment_id" := Str(assignmentId),
      "student_id" := StudentIdFor(fileName, fileType),
      "text_content" := Str(textContent),
      "created_at" := Str(now)
    ]
  }

  /** `result.data[0] if result.data else {}`. */
  function FirstOrEmpty(r: QueryResult): (row: Row)
    ensures r.data == [] ==> row == map[]
    ensures r.data != [] ==> row == r.data[0]
  {
    if r.data != [] then r.data[0] else map[]
  }

  /**
    The inline `data[0] if data else {}` agrees with `SupabaseResult.fetchone()`,
    with {} for its None; a response without `data` gives {}.
   */
  lemma FirstOrEmptyIsFetchOne(r: QueryResult)
    ensures FirstOrEmpty(r) == FetchOne(r).GetOr(map[])
    ensures FirstOrEmpty(FromRaw(None)) == map[]
  {
  }

  const FailedRecordPrefix := "Failed to create file record: "

  /**
    `create_file_record`: the record goes through `execute("INSERT INTO
    files", …)`, so it is appended to the table "files" and returned as
    stored; a database error is re-raised with the prefix.
   */
  method CreateFileRecord(db: Database, fileName: string, filePath: string, fileType: string, fileSize: int,
                          mimeType: string, assignmentId: string, textContent: string, now: string)
    returns (r: Result<Row, string>)
    modifies db.client
    ensures db.client == null ==> r == Err(FailedRecordPrefix + ErrorMessage(ClientMissing))
    ensures db.client != null ==>
              var data := FileData(fileName, filePath, fileType, fileSize, mimeType, assignmentId, textContent, now);
              var stored := Stored(data, |Rows(old(db.client.tables), "files")|);
              && db.client.tables == old(db.client.tables)["files" := Rows(old(db.client.tables), "files") + [stored]]
              && r == Ok(stored)
  {
    var data := FileData(fileName, filePath, fileType, fileSize, mimeType, assignmentId, textContent, now);
    FilesInsertQuery();
    var result := db.Execute(InsertPrefix + "files", data);
    match result
    case Err(e) =>
      return Err(FailedRecordPrefix + ErrorMessage(e));
    case Ok(res) =>
      return Ok(FirstOrEmpty(res));
  }
}
