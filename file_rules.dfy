/**
 * The rules the file engine applies before it writes (where a new node may
 * go and which directory it gets) and why each write keeps the table well
 * formed: every stored directory is the path of the parent, and sibling
 * names are unique.
 */
module FileRules {
  import opened Wrappers
  import opened Paths
  import opened Errors
  import opened FileTree
  import opened FileTreeWalks
  import opened FileTreePaths
  import FileStore

  /** What the model returns for any error the database or the disk reports. */
  const StoreFailure := Failure("store error")

  /** A node of owner may be placed under pfid: the owner's root, or one of the owner's directories. */
  ghost predicate ParentOK(t: Table, owner: string, pfid: string) {
    pfid == owner || (pfid in t && t[pfid].owner == owner && t[pfid].isDir)
  }

  /** The directory a node placed under pfid stores: "/" at the root, otherwise the parent's own path. */
  ghost function ParentPath(t: Table, owner: string, pfid: string): string
    requires ParentOK(t, owner, pfid)
  {
    if pfid == owner then "/" else Join(t[pfid].directory, t[pfid].filename)
  }

  /** No node of owner under pfid other than self is called name. */
  ghost predicate NameFree(t: Table, owner: string, pfid: string, name: string, self: string) {
    forall k | k in Children(t, owner, pfid) && k != self :: t[k].filename != name
  }

  /** Some node of owner under pfid is called name: what `GetFileByPFIDAndName` finds. */
  ghost predicate Taken(t: Table, owner: string, pfid: string, name: string) {
    exists k | k in Children(t, owner, pfid) :: t[k].filename == name
  }

  // ---------------------------------------------------------------------
  // The parent checks, as the service performs them.
  // ---------------------------------------------------------------------

  /** The outcome of a parent check: place the node in directory, stop with an error, or stop with neither. */
  datatype ParentCheck = Proceed(directory: string) | Stop(err: Error) | Silent

  /** What `GetFileByID(owner, id)` finds in t. */
  ghost function Lookup(t: Table, owner: string, id: string): Option<File> {
    if id in t && t[id].owner == owner then Some(t[id]) else None
  }

  /**
   * The parent check of `createFileModel` with the parent looked up by the
   * node's PFID: lookup and readOk are what that lookup returned.
   */
  function CheckCreateParent(f: File, lookup: Option<File>, readOk: bool): ParentCheck {
    if f.owner == f.pfid then Proceed("/")
    else if !readOk then Stop(StoreFailure)
    else if lookup.None? || !lookup.value.isDir then Stop(PathError("create", f.pfid, ParentNotADirectory))
    else Proceed(Join(lookup.value.directory, lookup.value.filename))
  }

  /**
   * The same check as services/files.go writes it: the lookup is by the
   * node's own FID, and the function returns as soon as that lookup
   * succeeds, with no node and no error. A failed lookup hands back an empty
   * row, which is not a directory.
   */
  function CheckCreateParentAsWritten(f: File, readOk: bool): ParentCheck {
    if f.owner == f.pfid then Proceed("/")
    else if readOk then Silent
    else Stop(PathError("create", f.pfid, ParentNotADirectory))
  }

  /** With the parent looked up in t, creation proceeds exactly under a valid parent, in the parent's path. */
  lemma CreateParentChecked(t: Table, f: File)
    ensures var c := CheckCreateParent(f, Lookup(t, f.owner, f.pfid), true);
            (c.Proceed? <==> ParentOK(t, f.owner, f.pfid)) &&
            (c.Proceed? ==> c.directory == ParentPath(t, f.owner, f.pfid)) &&
            (!c.Proceed? ==> c == Stop(PathError("create", f.pfid, ParentNotADirectory)))
  {
  }

  /** As written, every creation below a directory stops with neither a node nor an error. */
  lemma CreateBelowDirectoryIsSilentAsWritten(f: File)
    requires f.owner != f.pfid
    ensures CheckCreateParentAsWritten(f, true) == Silent
  {
  }

  /** A concrete case: a directory "docs" of user "u" exists, yet a node created in it is dropped as written. */
  lemma CreateInDocsAsWritten()
    ensures var t := map["d" := File("d", "u", "u", true, "docs", "/", 0)];
            var f := File("n", "u", "d", false, "a.txt", "", 3);
            CheckCreateParentAsWritten(f, true) == Silent &&
            CheckCreateParent(f, Lookup(t, "u", "d"), true) == Proceed("/docs") &&
            ParentOK(t, "u", "d")
  {
  }

  /**
   * The parent check of `move`, with the directory test the service leaves
   * out: the new parent is the owner's root or one of the owner's directories.
   */
  function CheckMoveParent(file: File, newPFID: string, lookup: Option<File>, readOk: bool): ParentCheck {
    if newPFID == file.owner then Proceed(Join("/", ""))
    else if !readOk then Stop(StoreFailure)
    else if lookup.None? || !lookup.value.isDir then Stop(PathError("move", newPFID, ParentNotADirectory))
    else Proceed(Join(lookup.value.directory, lookup.value.filename))
  }

  /** The parent check of `move` as services/files.go writes it: any row of the owner is accepted as parent. */
  function CheckMoveParentAsWritten(file: File, newPFID: string, lookup: Option<File>, readOk: bool): ParentCheck {
    if newPFID == file.owner then Proceed(Join("/", ""))
    else if !readOk then Stop(StoreFailure)
    else if lookup.None? then Stop(PathError("move", newPFID, ParentNotADirectory))
    else Proceed(Join(lookup.value.directory, lookup.value.filename))
  }

  lemma MoveParentChecked(t: Table, file: File, newPFID: string)
    ensures var c := CheckMoveParent(file, newPFID, Lookup(t, file.owner, newPFID), true);
            (c.Proceed? <==> ParentOK(t, file.owner, newPFID)) &&
            (c.Proceed? ==> c.directory == ParentPath(t, file.owner, newPFID)) &&
            (!c.Proceed? ==> c == Stop(PathError("move", newPFID, ParentNotADirectory)))
  {
  }

  /**
   * A concrete case: moving the file "b.txt" under the plain file "a.txt" is
   * accepted as written. The table then has a parent that is not a
   * directory, and the repository's delete of "a.txt" removes its row only,
   * leaving "b.txt" under a parent that no longer exists.
   */
  lemma MoveUnderPlainFileAsWritten()
    ensures var p := File("p", "u", "u", false, "a.txt", "/", 1);
            var n := File("n", "u", "u", false, "b.txt", "/", 1);
            var t := map["p" := p, "n" := n];
            var u := t["n" := n.(pfid := "p", directory := "/a.txt")];
            var rank := map["p" := 0, "n" := 1];
            CheckMoveParentAsWritten(n, "p", Lookup(t, "u", "p"), true) == Proceed("/a.txt") &&
            CheckMoveParent(n, "p", Lookup(t, "u", "p"), true) == Stop(PathError("move", "p", ParentNotADirectory)) &&
            WellFormed(t, rank) && !ParentsAreDirs(u) &&
            Ranked(u, rank) && Walked(u, rank, p) == {"p"} && "n" in Children(u, "u", "p")
  {
    var t := map["p" := File("p", "u", "u", false, "a.txt", "/", 1), "n" := File("n", "u", "u", false, "b.txt", "/", 1)];
    var rank := map["p" := 0, "n" := 1];
    var u := t["n" := t["n"].(pfid := "p", directory := "/a.txt")];
    assert HasParentRow(u, "n");
    assert !ParentsAreDirs(u);
    assert !Under(u, rank, "u", "p", "p");
  }

  // ---------------------------------------------------------------------
  // Each write keeps the table well formed.
  // ---------------------------------------------------------------------

  /** Creating a node under a valid parent, in the parent's path and with a free name, keeps the table well formed. */
  lemma InsertKeepsWellFormed(t: Table, rank: Rank, f: File, rank2: Rank)
    requires WellFormed(t, rank) && f.fid !in t && Shaped(t[f.fid := f], rank2)
    requires ParentOK(t, f.owner, f.pfid) && f.directory == ParentPath(t, f.owner, f.pfid)
    requires NameFree(t, f.owner, f.pfid, f.filename, f.fid)
    ensures WellFormed(t[f.fid := f], rank2)
  {
    var u := t[f.fid := f];
    forall x | x in u ensures PathOK(u, x) {
      if x != f.fid {
        assert PathOK(t, x);
        if t[x].pfid != t[x].owner {
          assert t[x].pfid != f.fid;
        }
      }
    }
    forall x, y | x in u && y in u && x != y && u[x].owner == u[y].owner && u[x].pfid == u[y].pfid
      ensures u[x].filename != u[y].filename
    {
      if x == f.fid {
        assert y in Children(t, f.owner, f.pfid);
      } else if y == f.fid {
        assert x in Children(t, f.owner, f.pfid);
      }
    }
  }

  /** An id the generator hands out is new: not the owner, not the parent, and no row sits below it. */
  ghost predicate FreshId(t: Table, f: File, id: string) {
    id != "" ==> id != f.owner && id != f.pfid && Children(t, f.owner, id) == {}
  }

  /**
   * What `createFileModel` does with the node f (its FID already chosen) on
   * the table t, leaving u: the node is placed, in its parent's path, only
   * under a valid parent and with a free name; otherwise the table is
   * unchanged and the error names the reason.
   */
  ghost predicate Created(t: Table, u: Table, f: File, r: Result<File, Error>) {
    (r.Ok? ==> ParentOK(t, f.owner, f.pfid) && NameFree(t, f.owner, f.pfid, f.filename, f.fid) && f.fid !in t &&
               r.value == f.(directory := ParentPath(t, f.owner, f.pfid)) && u == t[f.fid := r.value]) &&
    (r.Err? ==> u == t) &&
    (r.Err? ==> r.error == StoreFailure || r.error == PathError("create", f.pfid, ParentNotADirectory) ||
                (r.error.PathError? && r.error.op == "create" && r.error.cause == FileAlreadyExists)) &&
    (r.Err? && r.error.PathError? && r.error.cause == ParentNotADirectory ==> !ParentOK(t, f.owner, f.pfid)) &&
    (ParentOK(t, f.owner, f.pfid) && NameFree(t, f.owner, f.pfid, f.filename, f.fid) && f.fid !in t ==>
       r.Ok? || r == Err(StoreFailure)) &&
    (!ParentOK(t, f.owner, f.pfid) ==>
       r == Err(PathError("create", f.pfid, ParentNotADirectory)) || r == Err(StoreFailure)) &&
    (ParentOK(t, f.owner, f.pfid) && !NameFree(t, f.owner, f.pfid, f.filename, f.fid) ==>
       r.Err? && (r.error == StoreFailure || (r.error.PathError? && r.error.op == "create" && r.error.cause == FileAlreadyExists))) &&
    (r.Err? && r.error.PathError? && r.error.cause == FileAlreadyExists ==>
       exists k | k in Children(t, f.owner, f.pfid) ::
         t[k].filename == f.filename && r.error.path == Join(t[k].directory, t[k].filename))
  }

  /** A creation that stops on a store error, or on a parent that is not a directory, is one `Created` allows. */
  lemma CreatedStopped(t: Table, f: File, e: Error)
    requires e == StoreFailure || (e == PathError("create", f.pfid, ParentNotADirectory) && !ParentOK(t, f.owner, f.pfid))
    ensures Created(t, t, f, Err(e))
  {
  }

  /** A creation that stops on a sibling k of the same name is one `Created` allows. */
  lemma CreatedTaken(t: Table, f: File, k: string)
    requires ParentOK(t, f.owner, f.pfid) && k in Children(t, f.owner, f.pfid) && t[k].filename == f.filename
    ensures Created(t, t, f, Err(PathError("create", Join(t[k].directory, t[k].filename), FileAlreadyExists)))
  {
  }

  /** Inserting the node in its parent's path, after both checks passed, is the outcome `Created` describes. */
  lemma CreatedInserted(t: Table, f: File, d: string)
    requires ParentOK(t, f.owner, f.pfid) && d == ParentPath(t, f.owner, f.pfid) && f.fid !in t
    requires forall k | k in Children(t, f.owner, f.pfid) :: t[k].filename != f.filename
    ensures Created(t, t[f.fid := f.(directory := d)], f, Ok(f.(directory := d)))
  {
  }

  /** Removing exactly what a walk from a row visits keeps the table well formed. */
  lemma RemoveWalkKeepsWellFormed(t: Table, rank: Rank, u: Table, f: File)
    requires WellFormed(t, rank) && f.fid in t && t[f.fid] == f
    requires SubTable(u, t) && u.Keys == t.Keys - Walked(t, rank, f)
    ensures WellFormed(u, rank)
  {
    SubmapRanked(t, rank, u);
    forall x | x in u && HasParentRow(u, x) ensures u[u[x].pfid].isDir {
      assert HasParentRow(t, x);
    }
    forall x | x in u ensures PathOK(u, x) {
      assert PathOK(t, x);
      var p := t[x].pfid;
      if p != t[x].owner {
        assert HasParentRow(t, x);
        if p !in u {
          assert p in Walked(t, rank, f);
          assert Under(t, rank, f.owner, f.fid, x);
        }
      }
    }
  }

  /** What a rewrite below nv requires of nv itself. */
  ghost predicate PlacedAt(t: Table, nv: File) {
    nv.fid in t && t[nv.fid].fid == nv.fid && t[nv.fid].owner == nv.owner && t[nv.fid].isDir == nv.isDir &&
    ParentOK(t, nv.owner, nv.pfid) && nv.directory == ParentPath(t, nv.owner, nv.pfid) &&
    NameFree(t, nv.owner, nv.pfid, nv.filename, nv.fid)
  }

  /**
   * node has moved under newPFID: the parent is one of the owner's
   * directories (or the root), the name is free there, q ranks the old table
   * too, and u is the old table with the node re-homed in the parent's path
   * and its subtree's paths rewritten.
   */
  ghost predicate Moved(t: Table, q: Rank, u: Table, node: File, newPFID: string) {
    node.fid in t && t[node.fid] == node && node.pfid != newPFID &&
    ParentOK(t, node.owner, newPFID) && NameFree(t, node.owner, newPFID, node.filename, node.fid) &&
    Ranked(t, q) && Rehomed(t, q, u, node.(pfid := newPFID, directory := ParentPath(t, node.owner, newPFID)))
  }

  /** node has been renamed to newName: no node beside it had that name, and its subtree's paths now run through it. */
  ghost predicate Renamed(t: Table, q: Rank, u: Table, node: File, newName: string) {
    node.fid in t && t[node.fid] == node && node.filename != newName &&
    !Taken(t, node.owner, node.pfid, newName) &&
    Ranked(t, q) && Rehomed(t, q, u, node.(filename := newName))
  }

  /** A rename keeps a well-formed table well formed. */
  lemma RenamedKeepsWellFormed(t: Table, q: Rank, u: Table, node: File, newName: string)
    requires WellFormed(t, q) && Shaped(u, q) && Renamed(t, q, u, node, newName)
    ensures WellFormed(u, q)
  {
    assert PathOK(t, node.fid);
    RehomedKeepsWellFormed(t, q, u, node.(filename := newName));
  }

  /** A move keeps a well-formed table well formed, under the ranking the move leaves behind. */
  lemma MovedKeepsWellFormed(t: Table, rank: Rank, q: Rank, u: Table, node: File, newPFID: string)
    requires WellFormed(t, rank) && Shaped(u, q) && Moved(t, q, u, node, newPFID)
    ensures WellFormed(u, q)
  {
    RehomedKeepsWellFormed(t, q, u, node.(pfid := newPFID, directory := ParentPath(t, node.owner, newPFID)));
  }

  /**
   * Rewriting the directories below nv, once nv sits under a valid parent in
   * that parent's path with a free name, keeps the table well formed. The
   * ranking q is the one after the change; the old table is ranked by it too.
   */
  lemma RehomedKeepsWellFormed(t: Table, q: Rank, u: Table, nv: File)
    requires Shaped(t, q) && PathsConsistent(t) && SiblingsUnique(t) && Shaped(u, q)
    requires Rehomed(t, q, u, nv) && PlacedAt(t, nv)
    ensures WellFormed(u, q)
  {
    RehomedPaths(t, q, u, nv);
    RehomedSiblings(t, q, u, nv);
  }

  lemma RehomedPaths(t: Table, q: Rank, u: Table, nv: File)
    requires Shaped(t, q) && PathsConsistent(t) && Shaped(u, q)
    requires Rehomed(t, q, u, nv) && PlacedAt(t, nv)
    ensures PathsConsistent(u)
  {
    var n := nv.fid;
    NotUnderSelf(t, q, n);
    if nv.pfid != nv.owner {
      assert HasParentRow(u, n);
      if Under(t, q, nv.owner, n, nv.pfid) {
        UnderRank(t, q, nv.owner, n, nv.pfid);
        assert false;
      }
      assert u[nv.pfid] == t[nv.pfid];
    }
    forall x | x in u ensures PathOK(u, x) {
      if x != n {
        RehomedPathAt(t, q, u, nv, x);
      }
    }
  }

  lemma RehomedPathAt(t: Table, q: Rank, u: Table, nv: File, x: string)
    requires Shaped(t, q) && PathsConsistent(t)
    requires Rehomed(t, q, u, nv) && nv.fid in t && t[nv.fid].owner == nv.owner && t[nv.fid].isDir == nv.isDir
    requires x in t && x != nv.fid
    ensures PathOK(u, x)
  {
    var n := nv.fid;
    var p := t[x].pfid;
    NotUnderSelf(t, q, n);
    if Under(t, q, nv.owner, n, x) {
      if p != n {
        assert Under(t, q, nv.owner, n, p);
        assert u[p] == t[p].(directory := TargetDir(t, q, nv, p));
      } else {
        assert HasParentRow(t, x);
      }
    } else {
      assert PathOK(t, x);
      if p != t[x].owner {
        assert HasParentRow(t, x);
        assert !Under(t, q, nv.owner, n, p);
      }
    }
  }

  lemma RehomedSiblings(t: Table, q: Rank, u: Table, nv: File)
    requires Ranked(t, q) && SiblingsUnique(t)
    requires Rehomed(t, q, u, nv) && PlacedAt(t, nv)
    ensures SiblingsUnique(u)
  {
    var n := nv.fid;
    forall x, y | x in u && y in u && x != y && u[x].owner == u[y].owner && u[x].pfid == u[y].pfid
      ensures u[x].filename != u[y].filename
    {
      if x == n {
        assert y in Children(t, nv.owner, nv.pfid);
      } else if y == n {
        assert x in Children(t, nv.owner, nv.pfid);
      }
    }
  }

  // ---------------------------------------------------------------------
  // The ranking after a move.
  // ---------------------------------------------------------------------

  /** The ranking with n and everything below it raised by delta. */
  ghost function Raised(t: Table, rank: Rank, n: string, delta: nat): Rank
    requires Ranked(t, rank) && n in t
  {
    map x | x in rank :: if x == n || (x in t && Under(t, rank, t[n].owner, n, x)) then rank[x] + delta else rank[x]
  }

  /** Raising a whole subtree keeps every row above its parent row. */
  lemma RaisedKeepsRanked(t: Table, rank: Rank, n: string, delta: nat)
    requires Ranked(t, rank) && n in t
    ensures Ranked(t, Raised(t, rank, n, delta))
    ensures Raised(t, rank, n, delta)[n] == rank[n] + delta
    ensures forall x | x in t && x != n && !Under(t, rank, t[n].owner, n, x) :: Raised(t, rank, n, delta)[x] == rank[x]
  {
    var q := Raised(t, rank, n, delta);
    var o := t[n].owner;
    forall x | x in t && HasParentRow(t, x) ensures q[t[x].pfid] < q[x] {
      var p := t[x].pfid;
      var inX := x == n || Under(t, rank, o, n, x);
      var inP := p == n || Under(t, rank, o, n, p);
      if x == n && inP {
        NotUnderSelf(t, rank, n);
        if p != n {
          UnderRank(t, rank, o, n, p);
        }
        assert false;
      }
    }
  }
}
