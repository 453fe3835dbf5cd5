/** The upload handling of the todo endpoints: the files of a multipart
    request are checked (at most five, none empty, none above 2 MiB), turned
    into attachment records in order, and put into the todo record before
    the service creates or updates the todo. A failed check is an
    `IllegalArgumentException` with the message modelled here. */
module TodoController {
  import opened Basics
  import opened Dto
  import opened TodoService

  const MAX_FILES: nat := 5
  const MAX_FILE_SIZE: nat := 2 * 1024 * 1024

  /** An uploaded part; the client may omit its name and content type. */
  datatype MultipartFile = MultipartFile(originalFilename: Option<string>, contentType: Option<string>, bytes: seq<byte>)
  {
    function GetSize(): nat {
      |bytes|
    }

    predicate IsEmpty() {
      |bytes| == 0
    }
  }

  datatype FileError = TooManyFiles | EmptyFile(fileName: Option<string>) | FileTooLarge(fileName: Option<string>)

  /** A name as string concatenation renders it (null as "null"). */
  function NameText(name: Option<string>): string {
    if name.Some? then name.value else "null"
  }

  function FileErrorMessage(e: FileError): string {
    match e
    case TooManyFiles => "Maximum 5 files allowed"
    case EmptyFile(name) => "Empty file not allowed: " + NameText(name)
    case FileTooLarge(name) => "File size exceeds 2MB limit: " + NameText(name)
  }

  /** One file passes the per-file checks. */
  predicate FileAcceptable(f: MultipartFile) {
    !f.IsEmpty() && f.GetSize() <= MAX_FILE_SIZE
  }

  /** What `validateFiles` accepts: no file array at all, or at most five
      files that each pass the per-file checks. */
  predicate FilesAcceptable(files: Option<seq<MultipartFile>>) {
    files.None? || (|files.value| <= MAX_FILES && forall i :: 0 <= i < |files.value| ==> FileAcceptable(files.value[i]))
  }

  /** The error the per-file checks raise for a file that fails them: the
      emptiness check comes first. */
  function FileErrorOf(f: MultipartFile): FileError {
    if f.IsEmpty() then EmptyFile(f.originalFilename) else FileTooLarge(f.originalFilename)
  }

  /** `validateFiles`: passes exactly the acceptable uploads. More than five
      files fail on the count before any file is looked at; otherwise the
      error names the first file that fails. */
  method ValidateFiles(files: Option<seq<MultipartFile>>) returns (r: Outcome<FileError>)
    ensures r.Pass? <==> FilesAcceptable(files)
    ensures files.Some? && |files.value| > MAX_FILES ==> r == Fail(TooManyFiles)
    ensures r.Fail? && files.Some? && |files.value| <= MAX_FILES ==>
      exists i :: 0 <= i < |files.value|
        && (forall j :: 0 <= j < i ==> FileAcceptable(files.value[j]))
        && !FileAcceptable(files.value[i])
        && r.error == FileErrorOf(files.value[i])
  {
    if files.None? {
      return Pass;
    }
    var fs := files.value;
    if |fs| > MAX_FILES {
      return Fail(TooManyFiles);
    }
    var i := 0;
    while i < |fs|
      invariant 0 <= i <= |fs|
      invariant forall j :: 0 <= j < i ==> FileAcceptable(fs[j])
    {
      if fs[i].IsEmpty() {
        return Fail(EmptyFile(fs[i].originalFilename));
      }
      if fs[i].GetSize() > MAX_FILE_SIZE {
        return Fail(FileTooLarge(fs[i].originalFilename));
      }
      i := i + 1;
    }
    r := Pass;
  }

  /** The size limit is inclusive: a file of exactly 2 097 152 bytes passes,
      one byte more does not, and an empty file never does. */
  lemma FileSizeLimit(f: MultipartFile)
    ensures |f.bytes| == 2097152 ==> FileAcceptable(f)
    ensures |f.bytes| == 2097153 ==> !FileAcceptable(f)
    ensures |f.bytes| == 0 ==> !FileAcceptable(f)
  {
  }

  /** The attachment record of one uploaded file: no id, the file's name,
      content type and bytes. */
  function AttachmentOfFile(f: MultipartFile): AttachmentDto {
    AttachmentDto(None, f.originalFilename, f.contentType, f.bytes)
  }

  /** The upload a record came from, recovered from its fields. */
  function FileOfAttachment(a: AttachmentDto): MultipartFile {
    MultipartFile(a.fileName, a.fileType, a.data)
  }

  /** The list `convertFilesToAttachments` builds, one record per file in
      order (empty for no file array). */
  function UploadedAttachments(files: Option<seq<MultipartFile>>): (attachments: seq<AttachmentDto>)
    ensures files.None? ==> attachments == []
    ensures files.Some? ==> |attachments| == |files.value|
  {
    if files.None? then [] else seq(|files.value|, i requires 0 <= i < |files.value| => AttachmentOfFile(files.value[i]))
  }

  /** Nothing of an upload is lost: each record gives back its file, and
      the records carry no id. */
  lemma UploadedAttachmentsRoundTrip(files: seq<MultipartFile>)
    ensures forall i :: 0 <= i < |files| ==>
      FileOfAttachment(UploadedAttachments(Some(files))[i]) == files[i] && UploadedAttachments(Some(files))[i].id.None?
  {
  }

  /** `convertFilesToAttachments`. */
  method ConvertFilesToAttachments(files: Option<seq<MultipartFile>>) returns (attachments: seq<AttachmentDto>)
    ensures files.None? ==> attachments == []
    ensures files.Some? ==> |attachments| == |files.value|
    ensures files.Some? ==> forall i :: 0 <= i < |attachments| ==> attachments[i] == AttachmentOfFile(files.value[i])
    ensures attachments == UploadedAttachments(files)
  {
    attachments := [];
    if files.None? {
      return;
    }
    var fs := files.value;
    for i := 0 to |fs|
      invariant |attachments| == i
      invariant forall j :: 0 <= j < i ==> attachments[j] == AttachmentOfFile(fs[j])
    {
      attachments := attachments + [AttachmentOfFile(fs[i])];
    }
  }

  /** An update request without files is given an empty (not a null)
      attachment list, so the todo keeps its attachments; one with files
      replaces them by one attachment per distinct upload. */
  lemma UpdateWithoutFilesKeepsAttachments(current: set<Entity.AttachmentKey>, files: Option<seq<MultipartFile>>)
    ensures files.None? || files.value == [] ==> UpdatedAttachmentKeys(current, Some(UploadedAttachments(files))) == current
    ensures files.Some? && files.value != [] ==>
      UpdatedAttachmentKeys(current, Some(UploadedAttachments(files))) == AttachmentKeysOf(UploadedAttachments(files))
  {
  }

  /** The shared first half of `createTodo` and `updateTodo`: the files are
      checked and, when they pass, the record is given one attachment per
      file. */
  method PrepareUpload(todoDto: TodoDto, files: Option<seq<MultipartFile>>) returns (r: Result<TodoDto, string>)
    ensures r.Ok? <==> FilesAcceptable(files)
    ensures files.Some? && |files.value| > MAX_FILES ==> r == Err(FileErrorMessage(TooManyFiles))
    ensures r.Ok? ==> r.value == todoDto.WithAttachments(Some(UploadedAttachments(files)))
    ensures r.Ok? ==>
      && r.value.title == todoDto.title && r.value.description == todoDto.description
      && r.value.completed == todoDto.completed && r.value.dueDate == todoDto.dueDate
      && r.value.personId == todoDto.personId
  {
    var valid := ValidateFiles(files);
    if valid.Fail? {
      return Err(FileErrorMessage(valid.error));
    }
    var attachments := ConvertFilesToAttachments(files);
    r := Ok(todoDto.WithAttachments(Some(attachments)));
  }

  /** `createTodo`: checks the files, converts them, puts the list into the
      record and delegates to the service's `create`. */
  method CreateTodo(service: TodoServiceImpl, todoDto: TodoDto, files: Option<seq<MultipartFile>>)
    returns (r: Result<TodoDto, string>)
    requires service.Valid()
    modifies service
    ensures service.Valid()
    ensures !FilesAcceptable(files) ==> r.Err? && service.todos == old(service.todos) && service.nextId == old(service.nextId)
    ensures files.Some? && |files.value| > MAX_FILES ==> r == Err(FileErrorMessage(TooManyFiles))
    ensures service.persons == old(service.persons)
    ensures FilesAcceptable(files) ==> (r.Err? <==> todoDto.personId.Some? && todoDto.personId.value !in service.persons)
    ensures FilesAcceptable(files) && todoDto.personId.Some? && todoDto.personId.value !in service.persons ==>
      r == Err(PERSON_NOT_FOUND) && service.todos == old(service.todos) && service.nextId == old(service.nextId)
    ensures r.Ok? ==>
      && old(service.nextId) !in old(service.todos)
      && old(service.nextId) in service.todos
      && service.todos == old(service.todos)[old(service.nextId) := service.todos[old(service.nextId)]]
      && fresh(service.todos[old(service.nextId)])
      && service.todos[old(service.nextId)].id == Some(old(service.nextId))
      && BuiltFrom(service.todos[old(service.nextId)], todoDto.WithAttachments(Some(UploadedAttachments(files))), service.persons)
      && service.todos[old(service.nextId)].attachments.Keys == AttachmentKeysOf(UploadedAttachments(files))
      && Describes(r.value, service.todos[old(service.nextId)])
  {
    var prepared := PrepareUpload(todoDto, files);
    if prepared.Err? {
      return prepared;
    }
    r := service.Create(prepared.value);
  }

  /** `updateTodo`: checks the files, converts them, puts the list into the
      record and delegates to the service's `update`. */
  method UpdateTodo(service: TodoServiceImpl, id: int, todoDto: TodoDto, files: Option<seq<MultipartFile>>)
    returns (r: Result<TodoDto, string>)
    requires service.Valid()
    modifies if id in service.todos then {service.todos[id]} else {}
    ensures service.Valid()
    ensures !FilesAcceptable(files) ==> r.Err? && (id in service.todos ==> unchanged(service.todos[id]))
    ensures files.Some? && |files.value| > MAX_FILES ==> r == Err(FileErrorMessage(TooManyFiles))
    ensures FilesAcceptable(files) && id !in service.todos ==> r == Err(TODO_NOT_FOUND)
    ensures (&& FilesAcceptable(files) && id in service.todos
             && todoDto.personId.Some? && todoDto.personId.value !in service.persons) ==>
      r == Err(PERSON_NOT_FOUND) && unchanged(service.todos[id])
    ensures (&& FilesAcceptable(files) && id in service.todos
             && (todoDto.personId.Some? ==> todoDto.personId.value in service.persons)) ==>
      && r.Ok?
      && var todo := service.todos[id];
      && todo.id == old(todo.id) && todo.createdAt == old(todo.createdAt) && todo.updatedAt == old(todo.updatedAt)
      && todo.title == todoDto.title && todo.description == todoDto.description
      && todo.completed == todoDto.completed && todo.dueDate == todoDto.dueDate
      && todo.person == PersonFor(service.persons, todoDto.personId)
      && (files.None? || files.value == [] ==> todo.attachments == old(todo.attachments))
      && (files.Some? && files.value != [] ==>
            service.todos[id].attachments.Keys == AttachmentKeysOf(UploadedAttachments(files)))
      && Describes(r.value, service.todos[id])
  {
    var prepared := PrepareUpload(todoDto, files);
    if prepared.Err? {
      return prepared;
    }
    if id !in service.todos {
      r := service.Update(id, prepared.value);
      return;
    }
    ghost var before := service.todos[id].attachments.Keys;
    UpdateWithoutFilesKeepsAttachments(before, files);
    r := service.Update(id, prepared.value);
    assert service.todos == old(service.todos);
    assert old(service.todos[id].attachments.Keys) == before;
    assert r.Ok? ==> service.todos[id].attachments.Keys == UpdatedAttachmentKeys(before, prepared.value.attachments);
    assert (files.None? || files.value == []) ==> UpdatedAttachmentKeys(before, prepared.value.attachments) == before;
  }
}
