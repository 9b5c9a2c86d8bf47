/**
 * The file handlers of web/api/v1/fileapi.go: the mapping of the file
 * engine's errors to API results, and the handlers that fill in a missing
 * directory with the caller's root before they call the engine.
 */
module FileApi {
  import opened Wrappers
  import opened Errors
  import Api
  import opened FileTree
  import opened FileRules
  import FileService

  /** The sentinels that mean the request does not fit the tree as it is. */
  predicate PreconditionCause(s: FileSentinel) {
    s == ParentNotADirectory || s == FileIsMissing || s == CannotDownloadDirectory
  }

  /** The sentinels that mean the node asked for is not there. */
  predicate MissingCause(s: FileSentinel) {
    s == FileNotFound || s == DirectoryNotFound
  }

  /**
   * `fileErrorToAPIResult`: a path error is answered by the kind of its
   * sentinel; anything else, and a sentinel outside the table, is internal.
   */
  function FileErrorToAPIResult<D>(err: Error): (r: Api.APIResult<D>)
    ensures r.data.None? && r.responder.None? && r.error.Some? && r.error.value.err == err
    ensures r.error.value.code == Api.ErrFailedPrecondition <==> err.PathError? && PreconditionCause(err.cause)
    ensures r.error.value.code == Api.ErrNotFound <==> err.PathError? && MissingCause(err.cause)
    ensures r.error.value.code == Api.ErrAlreadyExists <==> err.PathError? && err.cause == FileAlreadyExists
    ensures r.error.value.code == Api.ErrInternal <==> !err.PathError? || err.cause == FileShareInvalid
  {
    if !err.PathError? then Api.Internal(err, None)
    else if PreconditionCause(err.cause) then Api.FailedPrecondition(err, None)
    else if MissingCause(err.cause) then Api.NotFound(err, None)
    else if err.cause == FileAlreadyExists then Api.AlreadyExists(err, None)
    else Api.Internal(err, None)
  }

  /**
   * The HTTP answer to a file error: a 400 for a precondition or a name
   * clash, a 404 for a missing node, a 500 for the rest, and never a
   * success; in release mode a 500 hides the error's text.
   */
  lemma FileErrorStatus<D>(err: Error, release: bool)
    ensures var reply := Api.Gin(Some(FileErrorToAPIResult<D>(err)), release);
            reply.Json? && reply.body.ErrorBody? && reply.body.data.None? &&
            (reply.status == Api.StatusBadRequest <==>
               err.PathError? && (PreconditionCause(err.cause) || err.cause == FileAlreadyExists)) &&
            (reply.status == Api.StatusNotFound <==> err.PathError? && MissingCause(err.cause)) &&
            (reply.status == Api.StatusInternalServerError <==> !err.PathError? || err.cause == FileShareInvalid) &&
            (reply.body.message != Message(err) ==> release && reply.status == Api.StatusInternalServerError)
  {
    var r := FileErrorToAPIResult<D>(err);
    assert Api.Gin(Some(r), release) == Api.RespondError(r.error.value, None, release);
  }

  /** The directory of an upload or a new directory: an empty one is the caller's root. */
  function DirectoryOrRoot(owner: string, directoryID: string): (d: string)
    ensures directoryID != "" ==> d == directoryID
    ensures directoryID == "" ==> d == owner
  {
    if directoryID == "" then owner else directoryID
  }

  /** The target of a move: "@" is the caller's root; every other value is passed on as it is. */
  function MoveTarget(owner: string, directoryID: string): (d: string)
    ensures directoryID != "@" ==> d == directoryID
    ensures directoryID == "@" ==> d == owner
  {
    if directoryID == "@" then owner else directoryID
  }

  /**
   * Filling in the root before the engine does changes nothing: the engine
   * places a node under the same parent whether the handler defaulted the
   * directory or not, and after the handler the directory is never empty
   * for a signed-in caller.
   */
  lemma DefaultAgreesWithEngine(owner: string, directoryID: string)
    ensures var d := DirectoryOrRoot(owner, directoryID);
            (if d == "" then owner else d) == (if directoryID == "" then owner else directoryID)
    ensures owner != "" ==> DirectoryOrRoot(owner, directoryID) != ""
    ensures DirectoryOrRoot(owner, DirectoryOrRoot(owner, directoryID)) == DirectoryOrRoot(owner, directoryID)
  {
  }

  /**
   * A move names its target explicitly: "@" reaches the root, an empty
   * target stays empty (the engine rejects it), and no other target is
   * rewritten.
   */
  lemma MoveTargetCases(owner: string, directoryID: string)
    ensures MoveTarget(owner, directoryID) == owner <==> directoryID == "@" || directoryID == owner
    ensures MoveTarget(owner, directoryID) == "" <==> directoryID == "" || (directoryID == "@" && owner == "")
  {
  }

  /** `FileMkdir`: creates the directory name under the given directory, or under the root when there is none. */
  method FileMkdir(service: FileService.FileService, owner: string, directoryID: string, name: string, newId: string)
    returns (r: Api.APIResult<File>)
    requires service.Valid()
    requires FreshId(service.files.rows, File("", owner, DirectoryOrRoot(owner, directoryID), true, name, "", 0), newId)
    modifies service.files, service.files.log, service.locker
    ensures service.Valid()
    ensures r.responder.None? && (r.error.None? <==> r.data.Some?)
    ensures r.error.Some? ==> service.files.rows == old(service.files.rows) && r == FileErrorToAPIResult(r.error.value.err)
    ensures r.error.None? ==>
              owner != "" && name != "" &&
              Created(old(service.files.rows), service.files.rows,
                      File(newId, owner, DirectoryOrRoot(owner, directoryID), true, name, "", 0), Ok(r.data.value))
    ensures r.error.None? && directoryID == "" ==> r.data.value.pfid == owner && r.data.value.directory == "/"
  {
    var dir := DirectoryOrRoot(owner, directoryID);
    DefaultAgreesWithEngine(owner, directoryID);
    var created := service.CreateDirectory(owner, dir, name, newId);
    if created.Err? {
      return FileErrorToAPIResult(created.error);
    }
    return Api.OK(Some(created.value), None);
  }

  /**
   * `FileUpload`: opens the uploaded file (which may fail, an invalid
   * argument), then stores it under the given directory, or under the root
   * when there is none.
   */
  method FileUpload(service: FileService.FileService, owner: string, directoryID: string, filename: string, size: int,
                    newId: string)
    returns (r: Api.APIResult<File>)
    requires service.Valid()
    requires FreshId(service.files.rows, File(newId, owner, DirectoryOrRoot(owner, directoryID), false, filename, "", size), newId)
    modifies service.files, service.files.log, service.files.blobs, service.locker
    ensures service.Valid()
    ensures r.responder.None? && (r.error.None? <==> r.data.Some?)
    ensures r.error.Some? ==>
              service.files.rows == old(service.files.rows) &&
              (r == FileErrorToAPIResult(r.error.value.err) || r.error.value.code == Api.ErrInvalidArgument)
    ensures r.error.None? ==>
              owner != "" && filename != "" && newId != "" &&
              Created(old(service.files.rows), service.files.rows,
                      File(newId, owner, DirectoryOrRoot(owner, directoryID), false, filename, "", size), Ok(r.data.value)) &&
              service.files.blobs.blobs == old(service.files.blobs.blobs) + {newId}
    ensures r.error.None? && directoryID == "" ==> r.data.value.pfid == owner && r.data.value.directory == "/"
  {
    var canOpen: bool := *;
    if !canOpen {
      return Api.InvalidArgument(Failure("multipart: cannot open the uploaded file"), None);
    }
    var dir := DirectoryOrRoot(owner, directoryID);
    DefaultAgreesWithEngine(owner, directoryID);
    var created := service.CreateFile(owner, dir, filename, size, true, newId);
    if created.Err? {
      return FileErrorToAPIResult(created.error);
    }
    return Api.OK(Some(created.value), None);
  }

  /** `FileMove`: moves the node fid under the given directory, "@" standing for the root. */
  method FileMove(service: FileService.FileService, owner: string, fid: string, directoryID: string)
    returns (r: Api.APIResult<File>)
    requires service.Valid()
    requires var target := MoveTarget(owner, directoryID);
             owner != "" && fid != "" && target != "" ==>
               target != fid && !(target in service.files.rows && Under(service.files.rows, service.files.rank, owner, fid, target))
    modifies service.files, service.files.log, service.locker
    ensures service.Valid()
    ensures r.responder.None? && r.data.None?
    ensures r.error.Some? ==> service.files.rows == old(service.files.rows) && r == FileErrorToAPIResult(r.error.value.err)
    ensures r.error.None? ==>
              fid in old(service.files.rows) && old(service.files.rows)[fid].owner == owner &&
              (old(service.files.rows)[fid].pfid == MoveTarget(owner, directoryID) ||
               Moved(old(service.files.rows), service.files.rank, service.files.rows, old(service.files.rows)[fid],
                     MoveTarget(owner, directoryID)))
    ensures var target, rows := MoveTarget(owner, directoryID), old(service.files.rows);
            owner != "" && fid != "" && target != "" && fid in rows && rows[fid].owner == owner && rows[fid].pfid != target &&
            Taken(rows, owner, target, rows[fid].filename) ==>
              r.error.Some? && (r.error.value.code == Api.ErrAlreadyExists || r.error.value.err == StoreFailure)
    ensures var target, rows := MoveTarget(owner, directoryID), old(service.files.rows);
            owner != "" && fid != "" && target != "" && fid in rows && rows[fid].owner == owner && rows[fid].pfid != target &&
            !ParentOK(rows, owner, target) && !Taken(rows, owner, target, rows[fid].filename) ==>
              r.error.Some? && (r.error.value.code == Api.ErrFailedPrecondition || r.error.value.err == StoreFailure)
    ensures var target, rows := MoveTarget(owner, directoryID), old(service.files.rows);
            owner != "" && fid != "" && target != "" && fid in rows && rows[fid].owner == owner && rows[fid].pfid == target ==>
              service.files.rows == rows && (r.error.None? || r.error.value.err == StoreFailure)
    ensures var target, rows := MoveTarget(owner, directoryID), old(service.files.rows);
            r.error.Some? && r.error.value.code == Api.ErrAlreadyExists ==>
              fid in rows && rows[fid].owner == owner && Taken(rows, owner, target, rows[fid].filename)
    ensures var target, rows := MoveTarget(owner, directoryID), old(service.files.rows);
            r.error.Some? && r.error.value.code == Api.ErrFailedPrecondition ==>
              fid in rows && rows[fid].owner == owner && !ParentOK(rows, owner, target)
  {
    var target := MoveTarget(owner, directoryID);
    var err, moved := service.MoveFile(owner, fid, target);
    if err.Some? {
      return FileErrorToAPIResult(err.value);
    }
    return Api.OK(None, None);
  }
}
