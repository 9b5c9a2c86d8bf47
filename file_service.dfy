/**
 * `FileService` of services/files.go: the file-tree engine. Every operation
 * that writes takes the owner's named lock; move, rename and delete run in a
 * transaction that is committed only when every step succeeded.
 */
module FileService {
  import opened Wrappers
  import opened Paths
  import opened Errors
  import opened FileTree
  import opened FileTreeWalks
  import opened FileTreePaths
  import opened FileStore
  import opened FileRules
  import Journal
  import Locker

  /**
   * The end of every transaction of the service: commit when the work
   * succeeded and asks for it, otherwise (or when the commit fails) roll
   * back, as the deferred rollback guarded by `commited` does.
   */
  method Conclude(u: UnitOfWork, e: Option<Error>, commit: bool) returns (err: Option<Error>)
    requires u.Valid()
    modifies u.live, u.live.log
    ensures u.Valid()
    ensures e.Some? ==> err == e
    ensures e.None? && !commit ==> err.None?
    ensures e.None? && commit ==> err.None? || err == Some(StoreFailure)
    ensures err.None? && commit ==> u.live.rows == u.tx.rows && u.live.rank == u.tx.rank
    ensures !(err.None? && commit) ==> u.live.rows == old(u.live.rows) && u.live.rank == old(u.live.rank)
    ensures u.live.log.events == old(u.live.log.events) +
                                 [if err.None? && commit then Journal.Committed else Journal.RolledBack]
  {
    if e.None? && commit {
      var committed := u.Commit();
      if committed {
        return None;
      }
      err := Some(StoreFailure);
    } else {
      err := e;
    }
    u.Rollback();
  }

  /** The work of `DeleteFile` inside the transaction: find the owner's node, then run the repository's delete. */
  method DeleteTree(owner: string, fid: string, tx: FileRepository) returns (err: Option<Error>, ghost complete: bool)
    requires tx.Valid()
    modifies tx, tx.log, tx.blobs
    ensures tx.Valid() && tx.rank == old(tx.rank)
    ensures !(fid in old(tx.rows) && old(tx.rows)[fid].owner == owner) ==>
              err == Some(PathError("delete", fid, FileNotFound)) || err == Some(StoreFailure)
    ensures err == Some(PathError("delete", fid, FileNotFound)) ==> !(fid in old(tx.rows) && old(tx.rows)[fid].owner == owner)
    ensures err.None? ==>
              fid in old(tx.rows) && old(tx.rows)[fid].owner == owner && fid !in tx.rows &&
              SubTable(tx.rows, old(tx.rows)) &&
              old(tx.rows).Keys - tx.rows.Keys <= Walked(old(tx.rows), old(tx.rank), old(tx.rows)[fid])
    ensures complete ==>
              err.None? && tx.rows.Keys == old(tx.rows).Keys - Walked(old(tx.rows), old(tx.rank), old(tx.rows)[fid])
    ensures tx.blobs.blobs <= old(tx.blobs.blobs)
    ensures old(tx.blobs.blobs) - tx.blobs.blobs <=
              if fid in old(tx.rows) && old(tx.rows)[fid].owner == owner
              then {fid} + Walked(old(tx.rows), old(tx.rank), old(tx.rows)[fid]) else {}
    ensures |tx.log.events| >= |old(tx.log.events)| && tx.log.events[..|old(tx.log.events)|] == old(tx.log.events)
    ensures Journal.NoCommit(tx.log.events[|old(tx.log.events)|..])
    ensures complete ==>
              BlobsRemoved(tx.log.events[|old(tx.log.events)|..], old(tx.rows),
                           Walked(old(tx.rows), old(tx.rank), old(tx.rows)[fid]))
  {
    complete := false;
    var row, found := tx.GetFileByID(owner, fid);
    if !found {
      return Some(StoreFailure), false;
    }
    if row.None? {
      return Some(PathError("delete", fid, FileNotFound)), false;
    }
    ghost var e0 := tx.log.events;
    var deleted, c := tx.DeleteFile(row.value);
    assert Journal.NoCommit(tx.log.events[|e0|..]) by {
      forall i | 0 <= i < |tx.log.events[|e0|..]| ensures tx.log.events[|e0|..][i] != Journal.Committed {
        assert DeleteEvents(tx.log.events[|e0|..], {fid} + Walked(old(tx.rows), old(tx.rank), row.value));
      }
    }
    if !deleted {
      return Some(StoreFailure), false;
    }
    err, complete := None, c;
  }

/**
   * The transaction of `DeleteFile`: begin a unit of work, delete in it, and
   * commit only when the delete succeeded.
   */
  method DeleteTransaction(files: FileRepository, owner: string, fid: string) returns (err: Option<Error>, ghost complete: bool)
    requires files.Valid()
    modifies files, files.log, files.blobs
    ensures files.Valid()
    ensures err.Some? ==> files.rows == old(files.rows) && files.rank == old(files.rank)
    ensures !(fid in old(files.rows) && old(files.rows)[fid].owner == owner) ==>
              err == Some(PathError("delete", fid, FileNotFound)) || err == Some(StoreFailure)
    ensures err == Some(PathError("delete", fid, FileNotFound)) ==>
              !(fid in old(files.rows) && old(files.rows)[fid].owner == owner)
    ensures err.None? ==>
              fid in old(files.rows) && old(files.rows)[fid].owner == owner && fid !in files.rows &&
              files.rank == old(files.rank) && SubTable(files.rows, old(files.rows)) &&
              old(files.rows).Keys - files.rows.Keys <= Walked(old(files.rows), old(files.rank), old(files.rows)[fid])
    ensures complete ==>
              err.None? && files.rows.Keys == old(files.rows).Keys - Walked(old(files.rows), old(files.rank), old(files.rows)[fid])
    ensures files.blobs.blobs <= old(files.blobs.blobs)
    ensures old(files.blobs.blobs) - files.blobs.blobs <=
              if fid in old(files.rows) && old(files.rows)[fid].owner == owner
              then {fid} + Walked(old(files.rows), old(files.rank), old(files.rows)[fid]) else {}
    ensures complete && old(WellFormed(files.rows, files.rank)) ==> WellFormed(files.rows, files.rank)
    ensures Journal.Transacted(old(files.log.events), files.log.events, err.None?)
    ensures complete ==>
              BlobsRemoved(files.log.events[|old(files.log.events)|..], old(files.rows), Walked(old(files.rows), old(files.rank), old(files.rows)[fid]))
  {
    complete := false;
    ghost var t0, r0, e0 := files.rows, files.rank, files.log.events;
    var u := Unit(files);
    if u == null {
      return Some(StoreFailure), false;
    }
    ghost var e1 := files.log.events;
    var e, c := DeleteTree(owner, fid, u.tx);
    ghost var e2 := files.log.events;
    err := Conclude(u, e, true);
    complete := c && err.None?;
    if complete {
      BlobsRemovedExtend(e2, files.log.events, e1, t0, Walked(t0, r0, t0[fid]));
      BlobsRemovedEarlier(e0, e1, files.log.events, t0, Walked(t0, r0, t0[fid]));
    }
    if complete && WellFormed(t0, r0) {
      RemoveWalkKeepsWellFormed(t0, r0, files.rows, t0[fid]);
    }
    Journal.TransactedRun(e0, e1, e2, files.log.events, err.None?);
  }

  class FileService {
    /** The live repository, `dataContext.File()`. */
    const files: FileRepository
    const locker: Locker.GLocker

    ghost predicate Valid()
      reads this, files, locker
    {
      files.Valid() && locker.Valid() && locker.log == files.log
    }

    constructor (files: FileRepository, locker: Locker.GLocker)
      requires files.Valid() && locker.Valid() && locker.log == files.log
      ensures Valid() && this.files == files && this.locker == locker
    {
      this.files := files;
      this.locker := locker;
    }

    /**
     * `createFileModel`: gives the node a FID from the id generator when it
     * has none, checks its parent (looked up by PFID) and its name, and
     * inserts it with its parent's path as directory. This is the corrected
     * behaviour: the source looks the parent up by the node's own FID, which
     * FileRules.CreateInDocsAsWritten models.
     */
    method CreateFileModel(file: File, newId: string) returns (r: Result<File, Error>)
      requires Valid() && FreshId(files.rows, file, if file.fid == "" then newId else file.fid)
      modifies files, files.log
      ensures Valid()
      ensures file.fid == "" && newId == "" ==>
                r == Err(Failure("FileService: cannot create uuid in createFileModel")) && files.rows == old(files.rows)
      ensures file.fid != "" || newId != "" ==>
                Created(old(files.rows), files.rows, file.(fid := if file.fid == "" then newId else file.fid), r)
      ensures r.Ok? && old(WellFormed(files.rows, files.rank)) ==> WellFormed(files.rows, files.rank)
      ensures files.log.events == old(files.log.events) + (if r.Ok? then [Journal.RowCreated(r.value.fid)] else [])
    {
      var f := file;
      if f.fid == "" {
        if newId == "" {
          return Err(Failure("FileService: cannot create uuid in createFileModel"));
        }
        f := f.(fid := newId);
      }
      assert f == file.(fid := if file.fid == "" then newId else file.fid);
      ghost var t0, r0 := files.rows, files.rank;
      var check := CheckPlacement(f);
      if check.Stop? {
        return Err(check.err);
      }
      var row := f.(directory := check.directory);
      var created := files.CreateFile(row);
      if !created {
        CreatedStopped(t0, f, StoreFailure);
        return Err(StoreFailure);
      }
      CreatedInserted(t0, f, check.directory);
      if WellFormed(t0, r0) {
        InsertKeepsWellFormed(t0, r0, row, files.rank);
      }
      r := Ok(row);
    }

    /**
     * The two checks of `createFileModel`: the parent (looked up by PFID)
     * must be the owner's root or one of the owner's directories, and no
     * sibling may have the node's name.
     */
    method CheckPlacement(f: File) returns (check: ParentCheck)
      requires Valid()
      ensures check.Proceed? || check.Stop?
      ensures check.Stop? ==> Created(files.rows, files.rows, f, Err(check.err))
      ensures check.Proceed? ==> ParentOK(files.rows, f.owner, f.pfid) &&
                                 check.directory == ParentPath(files.rows, f.owner, f.pfid) &&
                                 forall k | k in Children(files.rows, f.owner, f.pfid) :: files.rows[k].filename != f.filename
    {
      ghost var t0 := files.rows;
      check := Proceed("/");
      if f.owner != f.pfid {
        var parent, readOk := files.GetFileByID(f.owner, f.pfid);
        assert readOk ==> parent == Lookup(t0, f.owner, f.pfid);
        check := CheckCreateParent(f, parent, readOk);
      }
      CreateParentChecked(t0, f);
      if check.Stop? {
        CreatedStopped(t0, f, check.err);
        return;
      }
      var same, listed := files.GetFileByPFIDAndName(f.owner, f.pfid, f.filename);
      if !listed {
        CreatedStopped(t0, f, StoreFailure);
        return Stop(StoreFailure);
      }
      if same.Some? {
        CreatedTaken(t0, f, same.value.fid);
        return Stop(PathError("create", Join(same.value.directory, same.value.filename), FileAlreadyExists));
      }
    }

    /** `CreateDirectory`: checks the arguments, then creates the directory under the owner's lock. */
    method CreateDirectory(owner: string, directoryID: string, name: string, newId: string) returns (r: Result<File, Error>)
      requires Valid()
      requires FreshId(files.rows, File("", owner, if directoryID == "" then owner else directoryID, true, name, "", 0), newId)
      modifies files, files.log, locker
      ensures Valid() && locker.lockers == old(locker.lockers)
      ensures owner == "" ==> r == Err(InvalidArgument("FileService", "owner", "CreateDirectory"))
      ensures owner != "" && name == "" ==> r == Err(InvalidArgument("FileService", "name", "CreateDirectory"))
      ensures owner == "" || name == "" ==> files.rows == old(files.rows) && files.log.events == old(files.log.events)
      ensures owner != "" && name != "" ==>
                var f := File(newId, owner, if directoryID == "" then owner else directoryID, true, name, "", 0);
                (newId == "" ==> r == Err(Failure("FileService: cannot create uuid in createFileModel")) &&
                                 files.rows == old(files.rows)) &&
                (newId != "" ==> Created(old(files.rows), files.rows, f, r)) &&
                files.log.events == old(files.log.events) + [Journal.Locked(owner)] +
                                    (if r.Ok? then [Journal.RowCreated(newId)] else []) + [Journal.Unlocked(owner)]
      ensures r.Ok? && old(WellFormed(files.rows, files.rank)) ==> WellFormed(files.rows, files.rank)
    {
      if owner == "" {
        return Err(InvalidArgument("FileService", "owner", "CreateDirectory"));
      }
      if name == "" {
        return Err(InvalidArgument("FileService", "name", "CreateDirectory"));
      }
      var pfid := if directoryID == "" then owner else directoryID;
      var file := File("", owner, pfid, true, name, "", 0);
      Locker.ReleaseUndoesAcquire(locker.lockers, owner);
      locker.Lock(owner);
      r := CreateFileModel(file, newId);
      locker.UnLock(owner);
    }

    /**
     * `CreateFile`: checks the arguments (hasContent is false for a nil
     * upload), writes the blob under the new FID before taking the owner's
     * lock, creates the row, and removes the blob again when the row could
     * not be created.
     */
    method CreateFile(owner: string, directoryID: string, name: string, size: int, hasContent: bool, newId: string)
      returns (r: Result<File, Error>)
      requires Valid()
      requires FreshId(files.rows, File(newId, owner, if directoryID == "" then owner else directoryID, false, name, "", size), newId)
      modifies files, files.log, files.blobs, locker
      ensures Valid() && locker.lockers == old(locker.lockers)
      ensures owner == "" ==> r == Err(InvalidArgument("FileService", "owner", "CreateFile"))
      ensures owner != "" && name == "" ==> r == Err(InvalidArgument("FileService", "name", "CreateFile"))
      ensures owner != "" && name != "" && !hasContent ==> r == Err(InvalidArgument("FileService", "file", "CreateFile"))
      ensures owner != "" && name != "" && hasContent && newId == "" ==>
                r == Err(Failure("FileService: cannot create uuid in CreateFile"))
      ensures owner == "" || name == "" || !hasContent || newId == "" ==>
                files.rows == old(files.rows) && files.blobs.blobs == old(files.blobs.blobs) &&
                files.log.events == old(files.log.events)
      ensures owner != "" && name != "" && hasContent && newId != "" ==>
                var f := File(newId, owner, if directoryID == "" then owner else directoryID, false, name, "", size);
                Created(old(files.rows), files.rows, f, r) &&
                ((r == Err(StoreFailure) && files.log.events == old(files.log.events)) ||
                 files.log.events == old(files.log.events) + [Journal.BlobSaved(newId), Journal.Locked(owner)] +
                                     (if r.Ok? then [Journal.RowCreated(newId)] else [Journal.BlobRemoval(newId)]) +
                                     [Journal.Unlocked(owner)])
      ensures r.Ok? ==> files.blobs.blobs == old(files.blobs.blobs) + {newId}
      ensures r.Err? ==> old(files.blobs.blobs) - {newId} <= files.blobs.blobs <= old(files.blobs.blobs) + {newId}
      ensures r.Ok? && old(WellFormed(files.rows, files.rank)) ==> WellFormed(files.rows, files.rank)
    {
      if owner == "" {
        return Err(InvalidArgument("FileService", "owner", "CreateFile"));
      }
      if name == "" {
        return Err(InvalidArgument("FileService", "name", "CreateFile"));
      }
      if !hasContent {
        return Err(InvalidArgument("FileService", "file", "CreateFile"));
      }
      var pfid := if directoryID == "" then owner else directoryID;
      if newId == "" {
        return Err(Failure("FileService: cannot create uuid in CreateFile"));
      }
      var fileMod := File(newId, owner, pfid, false, name, "", size);
      var saved := files.blobs.Save(newId);
      if !saved {
        CreatedStopped(files.rows, fileMod, StoreFailure);
        return Err(StoreFailure);
      }
      r := CreateUploaded(fileMod);
    }

    /** The part of `CreateFile` under the owner's lock: create the row, and remove the uploaded blob when that fails. */
    method CreateUploaded(f: File) returns (r: Result<File, Error>)
      requires Valid() && f.fid != "" && FreshId(files.rows, f, f.fid)
      modifies files, files.log, files.blobs, locker
      ensures Valid() && locker.lockers == old(locker.lockers)
      ensures Created(old(files.rows), files.rows, f, r)
      ensures r.Ok? && old(WellFormed(files.rows, files.rank)) ==> WellFormed(files.rows, files.rank)
      ensures files.log.events == old(files.log.events) + [Journal.Locked(f.owner)] +
                                  (if r.Ok? then [Journal.RowCreated(f.fid)] else [Journal.BlobRemoval(f.fid)]) +
                                  [Journal.Unlocked(f.owner)]
      ensures r.Ok? ==> files.blobs.blobs == old(files.blobs.blobs)
      ensures r.Err? ==> old(files.blobs.blobs) - {f.fid} <= files.blobs.blobs <= old(files.blobs.blobs)
    {
      ghost var t0, e0 := files.rows, files.log.events;
      Locker.ReleaseUndoesAcquire(locker.lockers, f.owner);
      locker.Lock(f.owner);
      r := CreateFileModel(f, f.fid);
      ghost var t1, q1, e1 := files.rows, files.rank, files.log.events;
      if r.Err? {
        var _ := files.blobs.Remove(f.fid);
      }
      ghost var e2 := files.log.events;
      locker.UnLock(f.owner);
      assert files.rows == t1 && files.rank == q1;
      assert e2 == e1 + (if r.Ok? then [] else [Journal.BlobRemoval(f.fid)]);
    }

    /**
     * `DeleteFile`: under the owner's lock and in a transaction, deletes the
     * owner's node fid and everything below it; the transaction is committed
     * only when the repository's delete succeeded.
     */
    method DeleteFile(owner: string, fid: string) returns (err: Option<Error>, ghost complete: bool)
      requires Valid()
      modifies files, files.log, files.blobs, locker
      ensures Valid() && locker.lockers == old(locker.lockers)
      ensures owner == "" ==> err == Some(InvalidArgument("FileService", "owner", "DeleteFile"))
      ensures owner != "" && fid == "" ==> err == Some(InvalidArgument("FileService", "fid", "DeleteFile"))
      ensures owner == "" || fid == "" ==>
                files.rows == old(files.rows) && files.blobs.blobs == old(files.blobs.blobs) &&
                files.log.events == old(files.log.events)
      ensures err.Some? ==> files.rows == old(files.rows) && files.rank == old(files.rank)
      ensures owner != "" && fid != "" && !(fid in old(files.rows) && old(files.rows)[fid].owner == owner) ==>
                err == Some(PathError("delete", fid, FileNotFound)) || err == Some(StoreFailure)
      ensures err == Some(PathError("delete", fid, FileNotFound)) ==>
                !(fid in old(files.rows) && old(files.rows)[fid].owner == owner)
      ensures err.None? ==>
                fid in old(files.rows) && old(files.rows)[fid].owner == owner && fid !in files.rows &&
                files.rank == old(files.rank) && SubTable(files.rows, old(files.rows)) &&
                old(files.rows).Keys - files.rows.Keys <= Walked(old(files.rows), old(files.rank), old(files.rows)[fid])
      ensures complete ==>
                err.None? && files.rows.Keys == old(files.rows).Keys - Walked(old(files.rows), old(files.rank), old(files.rows)[fid])
      ensures files.blobs.blobs <= old(files.blobs.blobs)
      ensures old(files.blobs.blobs) - files.blobs.blobs <=
                if fid in old(files.rows) && old(files.rows)[fid].owner == owner
                then {fid} + Walked(old(files.rows), old(files.rank), old(files.rows)[fid]) else {}
      ensures complete && old(WellFormed(files.rows, files.rank)) ==> WellFormed(files.rows, files.rank)
      ensures owner != "" && fid != "" ==> Journal.Bracketed(old(files.log.events), files.log.events, owner, err.None?)
      ensures complete ==>
                BlobsRemoved(files.log.events[|old(files.log.events)|..], old(files.rows), Walked(old(files.rows), old(files.rank), old(files.rows)[fid]))
    {
      complete := false;
      if owner == "" {
        return Some(InvalidArgument("FileService", "owner", "DeleteFile")), false;
      }
      if fid == "" {
        return Some(InvalidArgument("FileService", "fid", "DeleteFile")), false;
      }
      Locker.ReleaseUndoesAcquire(locker.lockers, owner);
      locker.Lock(owner);
      ghost var e1 := files.log.events;
      ghost var t1 := files.rows;
      err, complete := DeleteTransaction(files, owner, fid);
      ghost var e2 := files.log.events;
      locker.UnLock(owner);
      if complete {
        BlobsRemovedExtend(e2, files.log.events, e1, t1, Walked(t1, files.rank, t1[fid]));
        BlobsRemovedEarlier(old(files.log.events), e1, files.log.events, t1, Walked(t1, files.rank, t1[fid]));
      }
      Journal.BracketTransacted(old(files.log.events), e1, e2, files.log.events, owner, err.None?);
    }

    /**
     * `MoveFile`: checks the arguments (reporting them, as the source does,
     * under the caller name "Download"), then moves the owner's node fid
     * under newPFID in a transaction under the owner's lock. Moving a node to
     * the parent it already has changes nothing and commits nothing. The
     * source does not refuse a move of a directory into its own subtree; the
     * model requires that the move does not close a cycle.
     */
    method MoveFile(owner: string, fid: string, newPFID: string) returns (err: Option<Error>, ghost moved: bool)
      requires Valid()
      requires owner != "" && fid != "" && newPFID != "" ==>
                 newPFID != fid && !(newPFID in files.rows && Under(files.rows, files.rank, owner, fid, newPFID))
      modifies files, files.log, locker
      ensures Valid() && locker.lockers == old(locker.lockers)
      ensures owner == "" ==> err == Some(InvalidArgument("FileService", "owner", "Download"))
      ensures owner != "" && fid == "" ==> err == Some(InvalidArgument("FileService", "fid", "Download"))
      ensures owner != "" && fid != "" && newPFID == "" ==> err == Some(InvalidArgument("FileService", "newPFID", "Download"))
      ensures owner == "" || fid == "" || newPFID == "" ==> files.log.events == old(files.log.events)
      ensures !moved ==> files.rows == old(files.rows) && files.rank == old(files.rank)
      ensures moved ==> err.None?
      ensures !(fid in old(files.rows) && old(files.rows)[fid].owner == owner) ==> !moved
      ensures owner != "" && fid != "" && newPFID != "" && !(fid in old(files.rows) && old(files.rows)[fid].owner == owner) ==>
                err == Some(PathError("move", fid, FileNotFound)) || err == Some(StoreFailure)
      ensures err == Some(PathError("move", fid, FileNotFound)) ==> !(fid in old(files.rows) && old(files.rows)[fid].owner == owner)
      ensures err.None? && !moved ==>
                fid in old(files.rows) && old(files.rows)[fid].owner == owner && old(files.rows)[fid].pfid == newPFID
      ensures moved ==> Moved(old(files.rows), files.rank, files.rows, old(files.rows)[fid], newPFID)
      ensures fid in old(files.rows) && old(files.rows)[fid].owner == owner && old(files.rows)[fid].pfid != newPFID &&
              (!ParentOK(old(files.rows), owner, newPFID) || Taken(old(files.rows), owner, newPFID, old(files.rows)[fid].filename)) ==>
                err.Some?
      ensures owner != "" && fid != "" && newPFID != "" && fid in old(files.rows) && old(files.rows)[fid].owner == owner && old(files.rows)[fid].pfid != newPFID &&
              Taken(old(files.rows), owner, newPFID, old(files.rows)[fid].filename) ==>
                err == Some(PathError("move", old(files.rows)[fid].filename, FileAlreadyExists)) || err == Some(StoreFailure)
      ensures owner != "" && fid != "" && newPFID != "" && fid in old(files.rows) && old(files.rows)[fid].owner == owner && old(files.rows)[fid].pfid != newPFID &&
              !ParentOK(old(files.rows), owner, newPFID) && !Taken(old(files.rows), owner, newPFID, old(files.rows)[fid].filename) ==>
                err == Some(PathError("move", newPFID, ParentNotADirectory)) || err == Some(StoreFailure)
      ensures err.Some? && err.value.PathError? && err.value.cause == FileAlreadyExists ==>
                fid in old(files.rows) && old(files.rows)[fid].owner == owner && err.value.path == old(files.rows)[fid].filename &&
                Taken(old(files.rows), owner, newPFID, old(files.rows)[fid].filename)
      ensures err.Some? && err.value.PathError? && err.value.cause == ParentNotADirectory ==>
                fid in old(files.rows) && old(files.rows)[fid].owner == owner && !ParentOK(old(files.rows), owner, newPFID)
      ensures owner != "" && fid != "" && newPFID != "" && err.Some? ==>
                err == Some(StoreFailure) || err == Some(PathError("move", fid, FileNotFound)) ||
                (err.value.PathError? && err.value.op == "move" &&
                 (err.value.cause == ParentNotADirectory || err.value.cause == FileAlreadyExists))
      ensures moved && old(WellFormed(files.rows, files.rank)) ==> WellFormed(files.rows, files.rank)
      ensures owner != "" && fid != "" && newPFID != "" ==>
                Journal.Bracketed(old(files.log.events), files.log.events, owner, moved)
      ensures owner != "" && fid != "" && newPFID != "" && fid in old(files.rows) && old(files.rows)[fid].owner == owner && old(files.rows)[fid].pfid == newPFID ==>
                !moved && (err.None? || err == Some(StoreFailure)) &&
                Journal.NoWrites(files.log.events[|old(files.log.events)|..])
    {
      moved := false;
      if owner == "" {
        return Some(InvalidArgument("FileService", "owner", "Download")), false;
      }
      if fid == "" {
        return Some(InvalidArgument("FileService", "fid", "Download")), false;
      }
      if newPFID == "" {
        return Some(InvalidArgument("FileService", "newPFID", "Download")), false;
      }
      Locker.ReleaseUndoesAcquire(locker.lockers, owner);
      locker.Lock(owner);
      ghost var e1 := files.log.events;
      err, moved := MoveTransaction(owner, fid, newPFID);
      ghost var e2 := files.log.events;
      locker.UnLock(owner);
      Journal.BracketTransacted(old(files.log.events), e1, e2, files.log.events, owner, moved);
      if fid in old(files.rows) && old(files.rows)[fid].owner == owner &&
         old(files.rows)[fid].pfid == newPFID {
        Journal.NoWritesBracketed(old(files.log.events), e1, e2, files.log.events, owner);
      }
    }

    /** The transaction of `MoveFile`: find the node, leave it where it is when it is already there, else move it and commit. */
    method MoveTransaction(owner: string, fid: string, newPFID: string) returns (err: Option<Error>, ghost moved: bool)
      requires Valid()
      requires newPFID != fid && !(newPFID in files.rows && Under(files.rows, files.rank, owner, fid, newPFID))
      modifies files, files.log
      ensures Valid()
      ensures !moved ==> files.rows == old(files.rows) && files.rank == old(files.rank)
      ensures moved ==> err.None?
      ensures !(fid in old(files.rows) && old(files.rows)[fid].owner == owner) ==>
                !moved && (err == Some(PathError("move", fid, FileNotFound)) || err == Some(StoreFailure))
      ensures err == Some(PathError("move", fid, FileNotFound)) ==> !(fid in old(files.rows) && old(files.rows)[fid].owner == owner)
      ensures err.None? && !moved ==>
                fid in old(files.rows) && old(files.rows)[fid].owner == owner && old(files.rows)[fid].pfid == newPFID
      ensures moved ==> Moved(old(files.rows), files.rank, files.rows, old(files.rows)[fid], newPFID)
      ensures fid in old(files.rows) && old(files.rows)[fid].owner == owner && old(files.rows)[fid].pfid != newPFID &&
              (!ParentOK(old(files.rows), owner, newPFID) || Taken(old(files.rows), owner, newPFID, old(files.rows)[fid].filename)) ==>
                err.Some?
      ensures fid in old(files.rows) && old(files.rows)[fid].owner == owner && old(files.rows)[fid].pfid != newPFID &&
              Taken(old(files.rows), owner, newPFID, old(files.rows)[fid].filename) ==>
                err == Some(PathError("move", old(files.rows)[fid].filename, FileAlreadyExists)) || err == Some(StoreFailure)
      ensures fid in old(files.rows) && old(files.rows)[fid].owner == owner && old(files.rows)[fid].pfid != newPFID &&
              !ParentOK(old(files.rows), owner, newPFID) && !Taken(old(files.rows), owner, newPFID, old(files.rows)[fid].filename) ==>
                err == Some(PathError("move", newPFID, ParentNotADirectory)) || err == Some(StoreFailure)
      ensures err.Some? && err.value.PathError? && err.value.cause == FileAlreadyExists ==>
                fid in old(files.rows) && old(files.rows)[fid].owner == owner && err.value.path == old(files.rows)[fid].filename &&
                Taken(old(files.rows), owner, newPFID, old(files.rows)[fid].filename)
      ensures err.Some? && err.value.PathError? && err.value.cause == ParentNotADirectory ==>
                fid in old(files.rows) && old(files.rows)[fid].owner == owner && !ParentOK(old(files.rows), owner, newPFID)
      ensures err.Some? ==> err == Some(StoreFailure) || err == Some(PathError("move", fid, FileNotFound)) ||
                            (err.value.PathError? && err.value.op == "move" &&
                             (err.value.cause == ParentNotADirectory || err.value.cause == FileAlreadyExists))
      ensures moved && old(WellFormed(files.rows, files.rank)) ==> WellFormed(files.rows, files.rank)
      ensures Journal.Transacted(old(files.log.events), files.log.events, moved)
      ensures fid in old(files.rows) && old(files.rows)[fid].owner == owner && old(files.rows)[fid].pfid == newPFID ==>
                !moved && (err.None? || err == Some(StoreFailure)) &&
                Journal.NoWrites(files.log.events[|old(files.log.events)|..])
    {
      ghost var t0, r0, e0 := files.rows, files.rank, files.log.events;
      moved := false;
      var u := Unit(files);
      if u == null {
        return Some(StoreFailure), false;
      }
      ghost var e1 := files.log.events;
      var e: Option<Error> := None;
      var commit := false;
      var row, read := u.tx.GetFileByID(owner, fid);
      if !read {
        e := Some(StoreFailure);
      } else if row.None? {
        e := Some(PathError("move", fid, FileNotFound));
      } else if row.value.pfid != newPFID {
        e := Move(row.value, newPFID, u.tx);
        commit := true;
      }
      ghost var e2 := files.log.events;
      assert Journal.NoCommit(e2[|e1|..]);
      err := Conclude(u, e, commit);
      moved := err.None? && commit;
      if moved && WellFormed(t0, r0) {
        MovedKeepsWellFormed(t0, r0, files.rank, files.rows, t0[fid], newPFID);
      }
      Journal.TransactedRun(e0, e1, e2, files.log.events, moved);
    }

    /**
     * `RenameFile`: checks the arguments, then renames the owner's node fid
     * in a transaction under the owner's lock. Renaming a node to the name it
     * already has changes nothing and commits nothing.
     */
    method RenameFile(owner: string, fid: string, newName: string) returns (err: Option<Error>, ghost renamed: bool)
      requires Valid()
      modifies files, files.log, locker
      ensures Valid() && locker.lockers == old(locker.lockers)
      ensures owner == "" ==> err == Some(InvalidArgument("FileService", "owner", "Rename"))
      ensures owner != "" && fid == "" ==> err == Some(InvalidArgument("FileService", "fid", "Rename"))
      ensures owner != "" && fid != "" && newName == "" ==> err == Some(InvalidArgument("FileService", "newName", "Rename"))
      ensures owner == "" || fid == "" || newName == "" ==> files.log.events == old(files.log.events)
      ensures !renamed ==> files.rows == old(files.rows) && files.rank == old(files.rank)
      ensures renamed ==> err.None?
      ensures !(fid in old(files.rows) && old(files.rows)[fid].owner == owner) ==> !renamed
      ensures owner != "" && fid != "" && newName != "" && !(fid in old(files.rows) && old(files.rows)[fid].owner == owner) ==>
                err == Some(PathError("rename", fid, FileNotFound)) || err == Some(StoreFailure)
      ensures err == Some(PathError("rename", fid, FileNotFound)) ==> !(fid in old(files.rows) && old(files.rows)[fid].owner == owner)
      ensures err.None? && !renamed ==>
                fid in old(files.rows) && old(files.rows)[fid].owner == owner && old(files.rows)[fid].filename == newName
      ensures renamed ==> Renamed(old(files.rows), files.rank, files.rows, old(files.rows)[fid], newName)
      ensures fid in old(files.rows) && old(files.rows)[fid].owner == owner && old(files.rows)[fid].filename != newName &&
              Taken(old(files.rows), owner, old(files.rows)[fid].pfid, newName) ==>
                err.Some?
      ensures owner != "" && fid != "" && newName != "" && fid in old(files.rows) && old(files.rows)[fid].owner == owner && old(files.rows)[fid].filename != newName &&
              Taken(old(files.rows), owner, old(files.rows)[fid].pfid, newName) ==>
                err == Some(PathError("rename", newName, FileAlreadyExists)) || err == Some(StoreFailure)
      ensures err.Some? && err.value.PathError? && err.value.cause == FileAlreadyExists ==>
                fid in old(files.rows) && old(files.rows)[fid].owner == owner && err == Some(PathError("rename", newName, FileAlreadyExists)) &&
                Taken(old(files.rows), owner, old(files.rows)[fid].pfid, newName)
      ensures owner != "" && fid != "" && newName != "" && err.Some? ==>
                err == Some(StoreFailure) || err == Some(PathError("rename", fid, FileNotFound)) ||
                err == Some(PathError("rename", newName, FileAlreadyExists))
      ensures renamed && old(WellFormed(files.rows, files.rank)) ==> WellFormed(files.rows, files.rank)
      ensures owner != "" && fid != "" && newName != "" ==>
                Journal.Bracketed(old(files.log.events), files.log.events, owner, renamed)
      ensures owner != "" && fid != "" && newName != "" && fid in old(files.rows) && old(files.rows)[fid].owner == owner && old(files.rows)[fid].filename == newName ==>
                !renamed && (err.None? || err == Some(StoreFailure)) &&
                Journal.NoWrites(files.log.events[|old(files.log.events)|..])
    {
      renamed := false;
      if owner == "" {
        return Some(InvalidArgument("FileService", "owner", "Rename")), false;
      }
      if fid == "" {
        return Some(InvalidArgument("FileService", "fid", "Rename")), false;
      }
      if newName == "" {
        return Some(InvalidArgument("FileService", "newName", "Rename")), false;
      }
      Locker.ReleaseUndoesAcquire(locker.lockers, owner);
      locker.Lock(owner);
      ghost var e1 := files.log.events;
      err, renamed := RenameTransaction(owner, fid, newName);
      ghost var e2 := files.log.events;
      locker.UnLock(owner);
      Journal.BracketTransacted(old(files.log.events), e1, e2, files.log.events, owner, renamed);
      if fid in old(files.rows) && old(files.rows)[fid].owner == owner &&
         old(files.rows)[fid].filename == newName {
        Journal.NoWritesBracketed(old(files.log.events), e1, e2, files.log.events, owner);
      }
    }

    /** The transaction of `RenameFile`: find the node, keep it when the name is unchanged, else rename it and commit. */
    method RenameTransaction(owner: string, fid: string, newName: string) returns (err: Option<Error>, ghost renamed: bool)
      requires Valid()
      modifies files, files.log
      ensures Valid()
      ensures !renamed ==> files.rows == old(files.rows) && files.rank == old(files.rank)
      ensures renamed ==> err.None?
      ensures !(fid in old(files.rows) && old(files.rows)[fid].owner == owner) ==>
                !renamed && (err == Some(PathError("rename", fid, FileNotFound)) || err == Some(StoreFailure))
      ensures err == Some(PathError("rename", fid, FileNotFound)) ==> !(fid in old(files.rows) && old(files.rows)[fid].owner == owner)
      ensures err.None? && !renamed ==>
                fid in old(files.rows) && old(files.rows)[fid].owner == owner && old(files.rows)[fid].filename == newName
      ensures renamed ==> Renamed(old(files.rows), files.rank, files.rows, old(files.rows)[fid], newName)
      ensures fid in old(files.rows) && old(files.rows)[fid].owner == owner && old(files.rows)[fid].filename != newName &&
              Taken(old(files.rows), owner, old(files.rows)[fid].pfid, newName) ==>
                err.Some?
      ensures fid in old(files.rows) && old(files.rows)[fid].owner == owner && old(files.rows)[fid].filename != newName &&
              Taken(old(files.rows), owner, old(files.rows)[fid].pfid, newName) ==>
                err == Some(PathError("rename", newName, FileAlreadyExists)) || err == Some(StoreFailure)
      ensures err.Some? && err.value.PathError? && err.value.cause == FileAlreadyExists ==>
                fid in old(files.rows) && old(files.rows)[fid].owner == owner && err == Some(PathError("rename", newName, FileAlreadyExists)) &&
                Taken(old(files.rows), owner, old(files.rows)[fid].pfid, newName)
      ensures err.Some? ==> err == Some(StoreFailure) || err == Some(PathError("rename", fid, FileNotFound)) ||
                            err == Some(PathError("rename", newName, FileAlreadyExists))
      ensures renamed && old(WellFormed(files.rows, files.rank)) ==> WellFormed(files.rows, files.rank)
      ensures Journal.Transacted(old(files.log.events), files.log.events, renamed)
      ensures fid in old(files.rows) && old(files.rows)[fid].owner == owner && old(files.rows)[fid].filename == newName ==>
                !renamed && (err.None? || err == Some(StoreFailure)) &&
                Journal.NoWrites(files.log.events[|old(files.log.events)|..])
    {
      ghost var t0, r0, e0 := files.rows, files.rank, files.log.events;
      renamed := false;
      var u := Unit(files);
      if u == null {
        return Some(StoreFailure), false;
      }
      ghost var e1 := files.log.events;
      var e: Option<Error> := None;
      var commit := false;
      var row, read := u.tx.GetFileByID(owner, fid);
      if !read {
        e := Some(StoreFailure);
      } else if row.None? {
        e := Some(PathError("rename", fid, FileNotFound));
      } else if row.value.filename != newName {
        e := Rename(row.value, newName, u.tx);
        commit := true;
      }
      ghost var e2 := files.log.events;
      assert Journal.NoCommit(e2[|e1|..]);
      err := Conclude(u, e, commit);
      renamed := err.None? && commit;
      if renamed && WellFormed(t0, r0) {
        RenamedKeepsWellFormed(t0, r0, files.rows, t0[fid], newName);
      }
      Journal.TransactedRun(e0, e1, e2, files.log.events, renamed);
    }

    /**
     * `Download`: the owner's plain file fid, read from the live table
     * without a lock. A directory cannot be downloaded; a row whose blob is
     * missing is deleted and reported as missing.
     */
    method Download(owner: string, fid: string) returns (file: Option<File>, err: Option<Error>)
      requires Valid()
      modifies files, files.log, files.blobs
      ensures Valid() && files.rank == old(files.rank) && files.blobs.blobs == old(files.blobs.blobs)
      ensures owner == "" ==> err == Some(InvalidArgument("FileService", "owner", "Download"))
      ensures owner != "" && fid == "" ==> err == Some(InvalidArgument("FileService", "fid", "Download"))
      ensures file.Some? <==> err.None?
      ensures file.Some? ==>
                fid in old(files.rows) && old(files.rows)[fid].owner == owner && file.value == old(files.rows)[fid] &&
                !file.value.isDir && fid in files.blobs.blobs
      ensures owner != "" && fid != "" && !(fid in old(files.rows) && old(files.rows)[fid].owner == owner) ==>
                err == Some(PathError("download", fid, FileNotFound)) || err == Some(StoreFailure)
      ensures err == Some(PathError("download", fid, FileNotFound)) ==> !(fid in old(files.rows) && old(files.rows)[fid].owner == owner)
      ensures owner != "" && fid != "" && fid in old(files.rows) && old(files.rows)[fid].owner == owner && old(files.rows)[fid].isDir ==>
                err == Some(PathError("download", fid, CannotDownloadDirectory)) || err == Some(StoreFailure)
      ensures err == Some(PathError("download", fid, CannotDownloadDirectory)) ==>
                fid in old(files.rows) && old(files.rows)[fid].owner == owner && old(files.rows)[fid].isDir
      ensures owner != "" && fid != "" && fid in old(files.rows) && old(files.rows)[fid].owner == owner &&
              !old(files.rows)[fid].isDir && fid !in old(files.blobs.blobs) ==>
                err == Some(PathError("download", fid, FileIsMissing)) || err == Some(StoreFailure)
      ensures err == Some(PathError("download", fid, FileIsMissing)) ==>
                fid in old(files.rows) && old(files.rows)[fid].owner == owner && !old(files.rows)[fid].isDir &&
                fid !in old(files.blobs.blobs) && files.rows == old(files.rows) - {fid} &&
                files.log.events == old(files.log.events) + [Journal.RowDeleted(fid), Journal.BlobRemoval(fid)]
      ensures err != Some(PathError("download", fid, FileIsMissing)) ==>
                files.rows == old(files.rows) && files.log.events == old(files.log.events)
      ensures old(WellFormed(files.rows, files.rank)) ==> WellFormed(files.rows, files.rank)
    {
      file := None;
      if owner == "" {
        return None, Some(InvalidArgument("FileService", "owner", "Download"));
      }
      if fid == "" {
        return None, Some(InvalidArgument("FileService", "fid", "Download"));
      }
      var row, read := files.GetFileByID(owner, fid);
      if !read {
        return None, Some(StoreFailure);
      }
      if row.None? {
        return None, Some(PathError("download", fid, FileNotFound));
      }
      if row.value.isDir {
        return None, Some(PathError("download", fid, CannotDownloadDirectory));
      }
      var blob := files.blobs.Open(fid);
      if blob == Missing {
        var deleted := DeleteMissing(row.value);
        if !deleted {
          return None, Some(StoreFailure);
        }
        return None, Some(PathError("download", fid, FileIsMissing));
      }
      if blob == Unreadable {
        return None, Some(StoreFailure);
      }
      file, err := row, None;
    }

    /** The self-healing step of `Download`: the repository's delete of a plain file row whose blob is gone. */
    method DeleteMissing(f: File) returns (ok: bool)
      requires Valid() && f.fid in files.rows && files.rows[f.fid] == f && !f.isDir && f.fid !in files.blobs.blobs
      modifies files, files.log, files.blobs
      ensures Valid() && files.rank == old(files.rank) && files.blobs.blobs == old(files.blobs.blobs)
      ensures files.rows == if ok then old(files.rows) - {f.fid} else old(files.rows)
      ensures files.log.events == old(files.log.events) +
                                  if ok then [Journal.RowDeleted(f.fid), Journal.BlobRemoval(f.fid)] else []
      ensures old(WellFormed(files.rows, files.rank)) ==> WellFormed(files.rows, files.rank)
    {
      ghost var t0, r0 := files.rows, files.rank;
      ghost var complete;
      ok, complete := files.DeleteFile(f);
      assert old(files.blobs.blobs) - {f.fid} == old(files.blobs.blobs);
      if ok && WellFormed(t0, r0) {
        assert Walked(t0, r0, f) == {f.fid};
        RemoveWalkKeepsWellFormed(t0, r0, files.rows, f);
      }
    }

    /** `GetFileByID` of the service: the owner's node fid, or not found. */
    method GetFileByID(owner: string, fid: string) returns (file: Option<File>, err: Option<Error>)
      requires Valid()
      ensures owner == "" ==> err == Some(InvalidArgument("FileService", "owner", "GetFileByID"))
      ensures owner != "" && fid == "" ==> err == Some(InvalidArgument("FileService", "fid", "GetFileByID"))
      ensures file.Some? <==> err.None?
      ensures file.Some? ==> fid in files.rows && files.rows[fid].owner == owner && file.value == files.rows[fid]
      ensures owner != "" && fid != "" && !(fid in files.rows && files.rows[fid].owner == owner) ==>
                err == Some(PathError("get", fid, FileNotFound)) || err == Some(StoreFailure)
      ensures err == Some(PathError("get", fid, FileNotFound)) ==> !(fid in files.rows && files.rows[fid].owner == owner)
      ensures owner != "" && fid != "" && err.Some? ==>
                err == Some(PathError("get", fid, FileNotFound)) || err == Some(StoreFailure)
    {
      if owner == "" {
        return None, Some(InvalidArgument("FileService", "owner", "GetFileByID"));
      }
      if fid == "" {
        return None, Some(InvalidArgument("FileService", "fid", "GetFileByID"));
      }
      var row, read := files.GetFileByID(owner, fid);
      if !read {
        return None, Some(StoreFailure);
      }
      if row.None? {
        return None, Some(PathError("get", fid, FileNotFound));
      }
      file, err := row, None;
    }

    /**
     * `GetFileByPID`: the owner's nodes directly under pid, paged. Its
     * argument errors name the caller "GetFileByID", as the source does.
     */
    method GetFileByPID(owner: string, pid: string, limit: nat, offset: nat) returns (list: seq<File>, err: Option<Error>)
      requires Valid()
      ensures owner == "" ==> err == Some(InvalidArgument("FileService", "owner", "GetFileByID"))
      ensures owner != "" && pid == "" ==> err == Some(InvalidArgument("FileService", "pid", "GetFileByID"))
      ensures owner != "" && pid != "" && err.Some? ==> err == Some(StoreFailure)
      ensures err.Some? ==> list == []
      ensures err.None? ==>
                Distinct(list) && |list| == WindowSize(|Children(files.rows, owner, pid)|, limit, offset) &&
                forall i | 0 <= i < |list| :: list[i].fid in Children(files.rows, owner, pid) && list[i] == files.rows[list[i].fid]
      ensures err.None? && limit == 0 && offset == 0 ==> Fids(list) == Children(files.rows, owner, pid)
    {
      if owner == "" {
        return [], Some(InvalidArgument("FileService", "owner", "GetFileByID"));
      }
      if pid == "" {
        return [], Some(InvalidArgument("FileService", "pid", "GetFileByID"));
      }
      var read;
      list, read := files.GetFilesByPFID(owner, pid, limit, offset);
      if !read {
        return [], Some(StoreFailure);
      }
      err := None;
    }

    /** `GetFileListsByOnwer`: every node of the owner, files and directories alike. */
    method GetFileListsByOwner(owner: string) returns (list: seq<File>, err: Option<Error>)
      requires Valid()
      ensures owner == "" ==> err == Some(InvalidArgument("FileService", "owner", "GetFileByID"))
      ensures owner != "" && err.Some? ==> err == Some(StoreFailure)
      ensures err.Some? ==> list == []
      ensures err.None? ==>
                Distinct(list) && Fids(list) == Owned(files.rows, owner, false) &&
                forall i | 0 <= i < |list| :: list[i].fid in files.rows && list[i] == files.rows[list[i].fid]
    {
      if owner == "" {
        return [], Some(InvalidArgument("FileService", "owner", "GetFileByID"));
      }
      var read;
      list, read := files.GetFileByOwner(owner, false, 0, 0);
      if !read {
        return [], Some(StoreFailure);
      }
      err := None;
    }

    /**
     * `move`: refuses a name already taken under the new parent and a parent
     * that is not one of the owner's directories ("/" stands for the owner's
     * root), then re-homes the node and rewrites the paths below it. The
     * directory check is the corrected behaviour: the source accepts any
     * existing parent, plain files included, which
     * FileRules.MoveUnderPlainFileAsWritten models. The
     * ghost ranking is raised over the moved subtree so that it stays above
     * its new parent.
     */
    method Move(file: File, newPFID: string, repo: FileRepository) returns (err: Option<Error>)
      requires repo.Valid() && file.fid in repo.rows && repo.rows[file.fid] == file
      requires newPFID != file.fid && !(newPFID in repo.rows && Under(repo.rows, repo.rank, file.owner, file.fid, newPFID))
      modifies repo, repo.log
      ensures repo.Valid() && Ranked(old(repo.rows), repo.rank)
      ensures err.None? ==>
                ParentOK(old(repo.rows), file.owner, newPFID) &&
                NameFree(old(repo.rows), file.owner, newPFID, file.filename, file.fid) &&
                Rehomed(old(repo.rows), repo.rank, repo.rows,
                        file.(pfid := newPFID, directory := ParentPath(old(repo.rows), file.owner, newPFID)))
      ensures !ParentOK(old(repo.rows), file.owner, newPFID) ==> err.Some?
      ensures err == Some(PathError("move", newPFID, ParentNotADirectory)) ==> !ParentOK(old(repo.rows), file.owner, newPFID)
      ensures err == Some(PathError("move", file.filename, FileAlreadyExists)) <==>
                Taken(old(repo.rows), file.owner, newPFID, file.filename) && err != Some(StoreFailure)
      ensures err.Some? ==> err == Some(StoreFailure) || err == Some(PathError("move", newPFID, ParentNotADirectory)) ||
                            err == Some(PathError("move", file.filename, FileAlreadyExists))
      ensures |repo.log.events| >= |old(repo.log.events)| &&
              repo.log.events[..|old(repo.log.events)|] == old(repo.log.events)
      ensures Journal.UpdatesWithin(repo.log.events[|old(repo.log.events)|..], Walked(old(repo.rows), repo.rank, file))
    {
      ghost var t0, r0 := repo.rows, repo.rank;
      var same, ok := repo.GetFileByPFIDAndName(file.owner, newPFID, file.filename);
      if !ok {
        return Some(StoreFailure);
      }
      if same.Some? {
        return Some(PathError("move", file.filename, FileAlreadyExists));
      }
      var check: ParentCheck;
      if newPFID != file.owner {
        var parent, read := repo.GetFileByID(file.owner, newPFID);
        check := CheckMoveParent(file, newPFID, parent, read);
        if read {
          assert parent == Lookup(t0, file.owner, newPFID);
        }
      } else {
        check := CheckMoveParent(file, newPFID, None, true);
      }
      MoveParentChecked(t0, file, newPFID);
      if check.Stop? {
        return Some(check.err);
      }
      ghost var delta: nat := if newPFID in t0 && t0[newPFID].owner == file.owner && r0[newPFID] >= r0[file.fid]
                              then r0[newPFID] + 1 - r0[file.fid] else 0;
      RaisedKeepsRanked(t0, r0, file.fid, delta);
      repo.Rerank(Raised(t0, r0, file.fid, delta));
      var adjusted := AdjustFilePath(file.(pfid := newPFID), check.directory, repo);
      err := if adjusted then None else Some(StoreFailure);
    }

    /**
     * `rename`: refuses a name already taken beside the node, then gives it
     * the new name and its subtree the paths below that name. Storing a node
     * whose children move under its new name is what `adjustFilePath` does
     * with the node's own directory, so the rewrite is that call.
     */
    method Rename(file: File, newName: string, repo: FileRepository) returns (err: Option<Error>)
      requires repo.Valid() && file.fid in repo.rows && repo.rows[file.fid] == file
      modifies repo, repo.log
      ensures repo.Valid() && repo.rank == old(repo.rank)
      ensures err.None? ==>
                !Taken(old(repo.rows), file.owner, file.pfid, newName) &&
                Rehomed(old(repo.rows), repo.rank, repo.rows, file.(filename := newName))
      ensures err == Some(PathError("rename", newName, FileAlreadyExists)) <==>
                Taken(old(repo.rows), file.owner, file.pfid, newName) && err != Some(StoreFailure)
      ensures err.Some? ==> err == Some(StoreFailure) || err == Some(PathError("rename", newName, FileAlreadyExists))
      ensures |repo.log.events| >= |old(repo.log.events)| &&
              repo.log.events[..|old(repo.log.events)|] == old(repo.log.events)
      ensures Journal.UpdatesWithin(repo.log.events[|old(repo.log.events)|..], Walked(old(repo.rows), repo.rank, file))
    {
      var same, ok := repo.GetFileByPFIDAndName(file.owner, file.pfid, newName);
      if !ok {
        return Some(StoreFailure);
      }
      if same.Some? {
        return Some(PathError("rename", newName, FileAlreadyExists));
      }
      assert HasParentRow(repo.rows, file.fid) ==> repo.rank[file.pfid] < repo.rank[file.fid];
      var adjusted := AdjustFilePath(file.(filename := newName), file.directory, repo);
      err := if adjusted then None else Some(StoreFailure);
    }

    /**
     * `adjustFilePath`: gives file the directory dir and rewrites the
     * directories of everything below it, children before their parent.
     */
    method AdjustFilePath(file: File, dir: string, repo: FileRepository) returns (ok: bool)
      requires repo.Valid() && Fits(repo.rows, repo.rank, file.(directory := dir))
      modifies repo, repo.log
      ensures repo.Valid() && repo.rank == old(repo.rank)
      ensures ok ==> Rehomed(old(repo.rows), repo.rank, repo.rows, file.(directory := dir))
      ensures !ok ==> SameShape(old(repo.rows), repo.rows)
      ensures |repo.log.events| >= |old(repo.log.events)| &&
              repo.log.events[..|old(repo.log.events)|] == old(repo.log.events)
      ensures Journal.UpdatesWithin(repo.log.events[|old(repo.log.events)|..], Walked(old(repo.rows), repo.rank, file))
      ensures ok ==> |repo.log.events| > |old(repo.log.events)| &&
                     repo.log.events[|repo.log.events| - 1] == Journal.RowUpdated(file.fid) &&
                     forall i | |old(repo.log.events)| <= i < |repo.log.events| - 1 ::
                       repo.log.events[i] != Journal.RowUpdated(file.fid)
      decreases if file.isDir then Desc(repo.rows, repo.rank, file.owner, file.fid) else {}, 1
    {
      ghost var t0, r0, e0 := repo.rows, repo.rank, repo.log.events;
      var nv := file.(directory := dir);
      if file.isDir {
        ok := AdjustChildren(nv, repo);
        if !ok {
          return;
        }
      } else {
        NothingBelowPlain(t0, r0, nv);
        PlainHasNoDesc(t0, r0, file.owner, file.fid);
      }
      ghost var ec := repo.log.events;
      NotUnderSelf(t0, r0, file.fid);
      ok := repo.UpdateFile(nv);
      if ok {
        assert repo.log.events[|e0|..] == ec[|e0|..] + [Journal.RowUpdated(file.fid)];
      }
    }

    /**
     * The loop of `adjustFilePath` (and of `rename`) over the listed
     * children of the directory nv: each child gets nv's path as its
     * directory; the first failure stops the walk.
     */
    method AdjustChildren(nv: File, repo: FileRepository) returns (ok: bool)
      requires repo.Valid() && nv.isDir
      requires nv.fid in repo.rows && repo.rows[nv.fid].owner == nv.owner
      modifies repo, repo.log
      ensures repo.Valid() && repo.rank == old(repo.rank)
      ensures SameShape(old(repo.rows), repo.rows)
      ensures ok ==> forall x | x in old(repo.rows) :: repo.rows[x] == Rewritten(old(repo.rows), repo.rank, nv, x)
      ensures |repo.log.events| >= |old(repo.log.events)| &&
              repo.log.events[..|old(repo.log.events)|] == old(repo.log.events)
      ensures Journal.UpdatesWithin(repo.log.events[|old(repo.log.events)|..],
                                    Desc(old(repo.rows), repo.rank, nv.owner, nv.fid))
      decreases Desc(repo.rows, repo.rank, nv.owner, nv.fid), 0
    {
      ghost var t0, r0, e0 := repo.rows, repo.rank, repo.log.events;
      ghost var below := Desc(t0, r0, nv.owner, nv.fid);
      NotUnderSelf(t0, r0, nv.fid);
      var children, listed := repo.GetFilesByPFID(nv.owner, nv.fid, 0, 0);
      if !listed {
        return false;
      }
      var newDirectory := Join(nv.directory, nv.filename);
      ghost var gone: set<string> := {};
      var i := 0;
      while i < |children|
        invariant 0 <= i <= |children|
        invariant repo.Valid() && repo.rank == r0
        invariant SameShape(t0, repo.rows)
        invariant gone == WalkedAll(t0, r0, children[..i]) && gone <= below
        invariant forall k | i <= k < |children| :: gone !! Walked(t0, r0, children[k])
        invariant forall x | x in t0 :: repo.rows[x] == if x in gone then Rewritten(t0, r0, nv, x) else t0[x]
        invariant |repo.log.events| >= |e0| && repo.log.events[..|e0|] == e0
        invariant Journal.UpdatesWithin(repo.log.events[|e0|..], below)
      {
        var c := children[i];
        ghost var ti, ei := repo.rows, repo.log.events;
        ChildFits(t0, ti, r0, nv, c, gone, newDirectory);
        var childOk := AdjustFilePath(c, newDirectory, repo);
        Journal.UpdatesJoin(ei, repo.log.events, e0, below, Walked(ti, r0, c), below);
        if !childOk {
          return false;
        }
        AdjustStep(t0, ti, repo.rows, r0, nv, c, gone);
        WalkedAllStep(t0, r0, children, i);
        forall k | i + 1 <= k < |children| ensures Walked(t0, r0, c) !! Walked(t0, r0, children[k]) {
          SiblingWalksDisjoint(t0, r0, nv, c, children[k]);
        }
        gone := gone + Walked(t0, r0, c);
        i := i + 1;
      }
      assert children[..i] == children;
      WalkedAllCoversDesc(t0, r0, nv, children);
      ok := true;
    }
  }

  /** The next child of nv may be rewritten: it fits, and its walk is unchanged and inside nv's subtree. */
  lemma ChildFits(t0: Table, ti: Table, r: Rank, nv: File, c: File, gone: set<string>, d: string)
    requires Shaped(ti, r) && Ranked(t0, r) && SameShape(t0, ti)
    requires nv.fid in t0 && t0[nv.fid].owner == nv.owner && nv.isDir
    requires c.fid in Children(t0, nv.owner, nv.fid) && t0[c.fid] == c
    requires forall x | x in t0 :: ti[x] == if x in gone then Rewritten(t0, r, nv, x) else t0[x]
    requires gone !! Walked(t0, r, c) && gone <= Desc(t0, r, nv.owner, nv.fid)
    ensures Fits(ti, r, c.(directory := d))
    ensures Walked(ti, r, c) == Walked(t0, r, c) <= Desc(t0, r, nv.owner, nv.fid)
    ensures c.isDir ==> Desc(ti, r, c.owner, c.fid) < Desc(t0, r, nv.owner, nv.fid)
  {
    ChildWalkInside(t0, r, nv, c);
    DescFrame(t0, r, ti, r, c.owner, c.fid);
    assert ti[c.fid] == c;
    assert HasParentRow(ti, c.fid);
  }
}
