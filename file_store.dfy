/**
 * The file side of the data layer: the blob directory (one blob per file
 * FID), the gorm file repository of repository/simple/file.go over the
 * metadata table, and the transaction of repository/simple/unixofwork.go.
 *
 * Every store call may fail; a failure is a nondeterministic choice of the
 * store, so each contract covers both outcomes.
 */
module FileStore {
  import opened Wrappers
  import opened FileTree
  import opened FileTreeWalks
  import Journal

  /** The directory of uploaded contents, one blob per file FID. */
  class BlobStore {
    var blobs: set<string>
    const log: Journal.Log

    constructor (log: Journal.Log)
      ensures blobs == {} && this.log == log
    {
      blobs := {};
      this.log := log;
    }

    /**
     * Writes the uploaded content under fid. A write that fails part way is
     * cleaned up, but a failed cleanup can leave the partial blob behind.
     */
    method Save(fid: string) returns (ok: bool)
      modifies this, log
      ensures ok ==> blobs == old(blobs) + {fid}
      ensures !ok ==> old(blobs) <= blobs <= old(blobs) + {fid}
      ensures log.events == old(log.events) + (if ok then [Journal.BlobSaved(fid)] else [])
    {
      ok := *;
      if ok {
        blobs := blobs + {fid};
        log.Record(Journal.BlobSaved(fid));
      } else {
        var leftBehind: bool := *;
        if leftBehind {
          blobs := blobs + {fid};
        }
      }
    }

    /** `os.Remove`: removing a blob that does not exist fails. */
    method Remove(fid: string) returns (ok: bool)
      modifies this, log
      ensures ok ==> fid in old(blobs) && blobs == old(blobs) - {fid}
      ensures !ok ==> blobs == old(blobs)
      ensures log.events == old(log.events) + [Journal.BlobRemoval(fid)]
    {
      var fault: bool := *;
      ok := fid in blobs && !fault;
      if ok {
        blobs := blobs - {fid};
      }
      log.Record(Journal.BlobRemoval(fid));
    }

    /** `os.OpenFile` for reading: a missing blob is reported as such; opening an existing one may still fail. */
    method Open(fid: string) returns (r: OpenOutcome)
      ensures r == Missing <==> fid !in blobs
    {
      if fid !in blobs {
        r := Missing;
      } else {
        var fault: bool := *;
        r := if fault then Unreadable else Opened;
      }
    }
  }

  datatype OpenOutcome = Opened | Missing | Unreadable

  /** The FIDs of a list of rows. */
  function Fids(fs: seq<File>): set<string> {
    set i | 0 <= i < |fs| :: fs[i].fid
  }

  /** No row appears twice. */
  predicate Distinct(fs: seq<File>) {
    forall i, j | 0 <= i < j < |fs| :: fs[i].fid != fs[j].fid
  }

  /** Every listed row is the table's current version of it. */
  predicate FromTable(t: Table, fs: seq<File>) {
    forall i | 0 <= i < |fs| :: fs[i].fid in t && fs[i] == t[fs[i].fid]
  }

  lemma AppendFresh(t: Table, fs: seq<File>, f: File)
    requires Distinct(fs) && FromTable(t, fs) && f.fid !in Fids(fs) && f.fid in t && t[f.fid] == f
    ensures Fids(fs + [f]) == Fids(fs) + {f.fid}
    ensures Distinct(fs + [f]) && FromTable(t, fs + [f])
  {
    var g := fs + [f];
    forall x | x in Fids(g) ensures x in Fids(fs) + {f.fid} {
      var i :| 0 <= i < |g| && g[i].fid == x;
      if i < |fs| {
        assert fs[i] == g[i];
      }
    }
    forall x | x in Fids(fs) ensures x in Fids(g) {
      var i :| 0 <= i < |fs| && fs[i].fid == x;
      assert g[i] == fs[i];
    }
    assert g[|fs|] == f;
    forall i, j | 0 <= i < j < |g| ensures g[i].fid != g[j].fid {
      if j == |fs| {
        assert g[i] == fs[i];
        assert g[i].fid in Fids(fs);
      }
    }
  }

  /** The number of rows a query returns out of n matches under SQL `LIMIT` (0: none) and `OFFSET`. */
  function WindowSize(n: nat, limit: nat, offset: nat): (k: nat)
    ensures k <= n
    ensures offset >= n ==> k == 0
    ensures limit > 0 ==> k <= limit
    ensures limit == 0 && offset == 0 ==> k == n
  {
    if offset >= n then 0
    else if limit == 0 || limit >= n - offset then n - offset
    else limit
  }

  /** The rows of all matches in store order, with `OFFSET` rows skipped and at most `LIMIT` kept. */
  function Window(all: seq<File>, limit: nat, offset: nat): (w: seq<File>)
    ensures |w| == WindowSize(|all|, limit, offset)
    ensures forall i | 0 <= i < |w| :: w[i] == all[i + offset]
  {
    if offset >= |all| then []
    else if limit == 0 || limit >= |all| - offset then all[offset..]
    else all[offset..offset + limit]
  }

  /** A row whose insertion keeps the table shaped: a fresh FID, no root, a parent that is a directory. */
  ghost predicate Insertable(t: Table, f: File) {
    f.fid != f.owner && f.fid != f.pfid &&
    Children(t, f.owner, f.fid) == {} &&
    (f.pfid in t && t[f.pfid].owner == f.owner ==> t[f.pfid].isDir)
  }

  /** A new version of a row that keeps the table shaped: same owner and kind, a parent ranked below it that is a directory. */
  ghost predicate Fits(t: Table, rank: Rank, f: File)
    requires Ranked(t, rank)
  {
    f.fid in t && t[f.fid].owner == f.owner && t[f.fid].isDir == f.isDir &&
    (f.pfid in t && t[f.pfid].owner == f.owner ==> t[f.pfid].isDir && rank[f.pfid] < rank[f.fid])
  }

  lemma UpdateKeepsShape(t: Table, rank: Rank, f: File)
    requires Shaped(t, rank) && Fits(t, rank, f)
    ensures Shaped(t[f.fid := f], rank)
  {
    var u := t[f.fid := f];
    forall x | x in u && HasParentRow(u, x) ensures rank[u[x].pfid] < rank[x] && u[u[x].pfid].isDir {
      if x != f.fid {
        assert HasParentRow(t, x);
      }
    }
  }

  lemma InsertKeepsShape(t: Table, rank: Rank, f: File, level: nat)
    requires Shaped(t, rank) && Insertable(t, f) && f.fid !in t
    requires f.pfid in t && t[f.pfid].owner == f.owner ==> rank[f.pfid] < level
    ensures Shaped(t[f.fid := f], rank[f.fid := level])
  {
    var u, r := t[f.fid := f], rank[f.fid := level];
    forall x | x in u && HasParentRow(u, x) ensures r[u[x].pfid] < r[x] && u[u[x].pfid].isDir {
      if x != f.fid {
        assert x !in Children(t, f.owner, f.fid);
        assert HasParentRow(t, x);
      }
    }
  }

  /** The events a delete of the walked rows S may record. */
  ghost predicate DeleteEvents(s: seq<Journal.Event>, S: set<string>) {
    forall i | 0 <= i < |s| :: (s[i].RowDeleted? || s[i].BlobRemoval?) && s[i].fid in S
  }

  /** Every plain-file row of t in S has the removal of its blob among the events s. */
  ghost predicate BlobsRemoved(s: seq<Journal.Event>, t: Table, S: set<string>) {
    forall x | x in S && x in t && !t[x].isDir :: Journal.BlobRemoval(x) in s
  }

  /** Removals recorded after e0 stay recorded when more events follow. */
  lemma BlobsRemovedExtend(a: seq<Journal.Event>, b: seq<Journal.Event>, e0: seq<Journal.Event>, t: Table, S: set<string>)
    requires |e0| <= |a| <= |b| && b[..|a|] == a && BlobsRemoved(a[|e0|..], t, S)
    ensures BlobsRemoved(b[|e0|..], t, S)
  {
    forall x | x in S && x in t && !t[x].isDir ensures Journal.BlobRemoval(x) in b[|e0|..] {
      var k :| 0 <= k < |a| - |e0| && a[|e0|..][k] == Journal.BlobRemoval(x);
      assert b[|e0|..][k] == b[..|a|][|e0| + k];
    }
  }

  /** Removals recorded after e1 are recorded after any earlier point e0. */
  lemma BlobsRemovedEarlier(e0: seq<Journal.Event>, e1: seq<Journal.Event>, e: seq<Journal.Event>, t: Table, S: set<string>)
    requires |e0| <= |e1| <= |e| && BlobsRemoved(e[|e1|..], t, S)
    ensures BlobsRemoved(e[|e0|..], t, S)
  {
    forall x | x in S && x in t && !t[x].isDir ensures Journal.BlobRemoval(x) in e[|e0|..] {
      var k :| 0 <= k < |e| - |e1| && e[|e1|..][k] == Journal.BlobRemoval(x);
      assert e[|e0|..][|e1| - |e0| + k] == e[|e1|..][k];
    }
  }

  /**
   * One step of the walk over a directory's children: the removals of the
   * rows gone so far, recorded after e0, and those of the next child's walk,
   * recorded after ei on the table ti left by the earlier children, together
   * cover both walks in the original table.
   */
  lemma BlobsRemovedStep(t0: Table, r0: Rank, ti: Table, c: File, gone: set<string>,
                         e0: seq<Journal.Event>, ei: seq<Journal.Event>, en: seq<Journal.Event>)
    requires Ranked(t0, r0) && SubTable(ti, t0) && ti.Keys == t0.Keys - gone && gone !! Walked(t0, r0, c)
    requires |e0| <= |ei| <= |en| && en[..|ei|] == ei
    requires BlobsRemoved(ei[|e0|..], t0, gone)
    requires Ranked(ti, r0) && BlobsRemoved(en[|ei|..], ti, Walked(ti, r0, c))
    ensures BlobsRemoved(en[|e0|..], t0, gone + Walked(t0, r0, c))
  {
    KeptWalk(t0, r0, ti, c, gone);
    BlobsRemovedExtend(ei, en, e0, t0, gone);
    forall x | x in Walked(t0, r0, c) && x in t0 && !t0[x].isDir ensures Journal.BlobRemoval(x) in en[|e0|..] {
      assert x in ti;
      var k :| 0 <= k < |en| - |ei| && en[|ei|..][k] == Journal.BlobRemoval(x);
      assert en[|e0|..][|ei| - |e0| + k] == en[|ei|..][k];
    }
  }

  /** The union of what the walks from each listed row visit. */
  ghost function WalkedAll(t: Table, rank: Rank, cs: seq<File>): set<string>
    requires Ranked(t, rank)
  {
    if cs == [] then {} else WalkedAll(t, rank, cs[..|cs| - 1]) + Walked(t, rank, cs[|cs| - 1])
  }

  lemma WalkedAllStep(t: Table, rank: Rank, cs: seq<File>, i: nat)
    requires Ranked(t, rank) && i < |cs|
    ensures WalkedAll(t, rank, cs[..i + 1]) == WalkedAll(t, rank, cs[..i]) + Walked(t, rank, cs[i])
  {
    assert cs[..i + 1][..i] == cs[..i];
  }

  lemma {:induction false} WalkedAllMember(t: Table, rank: Rank, cs: seq<File>, x: string)
    requires Ranked(t, rank)
    ensures x in WalkedAll(t, rank, cs) <==> exists j | 0 <= j < |cs| :: x in Walked(t, rank, cs[j])
  {
    if cs != [] {
      var init := cs[..|cs| - 1];
      WalkedAllMember(t, rank, init, x);
      if x in WalkedAll(t, rank, init) {
        var j :| 0 <= j < |init| && x in Walked(t, rank, init[j]);
        assert cs[j] == init[j];
      }
      forall j | 0 <= j < |cs| && x in Walked(t, rank, cs[j]) ensures x in WalkedAll(t, rank, cs) {
        if j < |cs| - 1 {
          assert init[j] == cs[j];
        }
      }
    }
  }

  /** The walks from all children of the directory f together visit exactly f's subtree. */
  lemma WalkedAllCoversDesc(t: Table, rank: Rank, f: File, cs: seq<File>)
    requires Ranked(t, rank) && ParentsAreDirs(t) && f.isDir
    requires Fids(cs) == Children(t, f.owner, f.fid)
    requires forall i | 0 <= i < |cs| :: cs[i].fid in t && cs[i] == t[cs[i].fid]
    ensures WalkedAll(t, rank, cs) == Desc(t, rank, f.owner, f.fid)
  {
    var below := Desc(t, rank, f.owner, f.fid);
    forall x | x in WalkedAll(t, rank, cs) ensures x in below {
      WalkedAllMember(t, rank, cs, x);
      var j :| 0 <= j < |cs| && x in Walked(t, rank, cs[j]);
      ChildWalkInside(t, rank, f, cs[j]);
    }
    forall x | x in below ensures x in WalkedAll(t, rank, cs) {
      DescUnfold(t, rank, f.owner, f.fid, x);
      var c: string;
      if x in Children(t, f.owner, f.fid) {
        c := x;
      } else {
        c :| c in Children(t, f.owner, f.fid) && x in Desc(t, rank, f.owner, c);
        if !t[c].isDir {
          PlainHasNoDesc(t, rank, f.owner, c);
        }
      }
      assert c in Fids(cs);
      var j :| 0 <= j < |cs| && cs[j].fid == c;
      assert x in Walked(t, rank, cs[j]);
      WalkedAllMember(t, rank, cs, x);
    }
  }

  lemma DeleteEventsJoin(a: seq<Journal.Event>, b: seq<Journal.Event>, e0: seq<Journal.Event>,
                         s0: set<string>, s1: set<string>, s: set<string>)
    requires |a| >= |e0| && a[..|e0|] == e0 && DeleteEvents(a[|e0|..], s0) && s0 <= s
    requires |b| >= |a| && b[..|a|] == a && DeleteEvents(b[|a|..], s1) && s1 <= s
    ensures |b| >= |e0| && b[..|e0|] == e0 && DeleteEvents(b[|e0|..], s)
  {
    assert b[..|e0|] == a[..|e0|];
    forall i | |e0| <= i < |b| ensures (b[i].RowDeleted? || b[i].BlobRemoval?) && b[i].fid in s {
      if i < |a| {
        assert b[i] == a[i] == a[|e0|..][i - |e0|];
      } else {
        assert b[i] == b[|a|..][i - |a|];
      }
    }
  }

  /** The rows of s in an order the store chooses. */
  method Enumerate(rows: Table, s: set<string>) returns (all: seq<File>)
    requires Keyed(rows) && s <= rows.Keys
    ensures Fids(all) == s && Distinct(all) && |all| == |s|
    ensures FromTable(rows, all)
  {
    var rest := s;
    all := [];
    while rest != {}
      invariant rest <= s
      invariant Fids(all) + rest == s && Fids(all) !! rest
      invariant Distinct(all) && |all| + |rest| == |s|
      invariant FromTable(rows, all)
    {
      var k :| k in rest;
      AppendFresh(rows, all, rows[k]);
      all := all + [rows[k]];
      rest := rest - {k};
    }
  }

  /** The gorm repository over the file table, with the blob directory it removes contents from. */
  class FileRepository {
    var rows: Table
    ghost var rank: Rank
    const blobs: BlobStore
    const log: Journal.Log

    ghost predicate Valid()
      reads this
    {
      Shaped(rows, rank) && blobs.log == log
    }

    constructor (blobs: BlobStore)
      ensures Valid() && rows == map[] && this.blobs == blobs && log == blobs.log
    {
      rows := map[];
      rank := map[];
      this.blobs := blobs;
      log := blobs.log;
    }

    /** The repository of a transaction begun on `of`: it starts from of's rows and shares its blobs. */
    constructor Snapshot(of: FileRepository)
      requires of.Valid()
      ensures Valid() && rows == of.rows && rank == of.rank && blobs == of.blobs && log == of.log
    {
      rows := of.rows;
      rank := of.rank;
      blobs := of.blobs;
      log := of.log;
    }

    /** `db.Create`: inserts f unless its FID is already taken (the unique index) or the store fails. */
    method CreateFile(f: File) returns (ok: bool)
      requires Valid() && Insertable(rows, f)
      modifies this, log
      ensures Valid()
      ensures ok ==> f.fid !in old(rows) && rows == old(rows)[f.fid := f]
      ensures !ok ==> rows == old(rows) && rank == old(rank)
      ensures log.events == old(log.events) + (if ok then [Journal.RowCreated(f.fid)] else [])
    {
      var fault: bool := *;
      ok := f.fid !in rows && !fault;
      if ok {
        var level: nat := if f.pfid in rows && rows[f.pfid].owner == f.owner then rank[f.pfid] + 1 else 0;
        InsertKeepsShape(rows, rank, f, level);
        rows := rows[f.fid := f];
        rank := rank[f.fid := level];
        log.Record(Journal.RowCreated(f.fid));
      }
    }

    /** Re-ranks the unchanged table, as a move does before it re-homes a subtree under a higher parent. */
    ghost method Rerank(q: Rank)
      requires Valid() && Ranked(rows, q)
      modifies this
      ensures Valid() && rows == old(rows) && rank == q
    {
      rank := q;
    }

    /** `db.Save`: stores the new version of an existing row. */
    method UpdateFile(f: File) returns (ok: bool)
      requires Valid() && Fits(rows, rank, f)
      modifies this, log
      ensures Valid() && rank == old(rank)
      ensures rows == if ok then old(rows)[f.fid := f] else old(rows)
      ensures log.events == old(log.events) + (if ok then [Journal.RowUpdated(f.fid)] else [])
    {
      ok := *;
      if ok {
        UpdateKeepsShape(rows, rank, f);
        rows := rows[f.fid := f];
        log.Record(Journal.RowUpdated(f.fid));
      }
    }

    /** `db.Delete` of one row: removes f's row; a row that is already gone is not an error. */
    method DeleteRow(f: File) returns (ok: bool)
      requires Valid()
      modifies this, log
      ensures Valid() && rank == old(rank)
      ensures ok ==> rows == if f.fid in old(rows) && old(rows)[f.fid].owner == f.owner
                             then old(rows) - {f.fid} else old(rows)
      ensures !ok ==> rows == old(rows)
      ensures log.events == old(log.events) + (if ok then [Journal.RowDeleted(f.fid)] else [])
    {
      ok := *;
      if ok {
        if f.fid in rows && rows[f.fid].owner == f.owner {
          SubmapRanked(rows, rank, rows - {f.fid});
          rows := rows - {f.fid};
        }
        log.Record(Journal.RowDeleted(f.fid));
      }
    }

    /** `GetFilesByPFID`: owner's rows whose PFID is pfid, paged. */
    method GetFilesByPFID(owner: string, pfid: string, limit: nat, offset: nat) returns (files: seq<File>, ok: bool)
      requires Valid()
      ensures ok ==> Distinct(files) && |files| == WindowSize(|Children(rows, owner, pfid)|, limit, offset)
      ensures ok ==> forall i | 0 <= i < |files| ::
                       files[i].fid in Children(rows, owner, pfid) && files[i] == rows[files[i].fid]
      ensures ok && limit == 0 && offset == 0 ==> Fids(files) == Children(rows, owner, pfid)
    {
      ok := *;
      if !ok {
        return [], false;
      }
      var all := Enumerate(rows, Children(rows, owner, pfid));
      files := Window(all, limit, offset);
      if limit == 0 && offset == 0 {
        assert files == all;
      }
    }

    /** `GetFileByOwner`: owner's rows, only directories when isdir is set, paged. */
    method GetFileByOwner(owner: string, isdir: bool, limit: nat, offset: nat) returns (files: seq<File>, ok: bool)
      requires Valid()
      ensures ok ==> Distinct(files) && |files| == WindowSize(|Owned(rows, owner, isdir)|, limit, offset)
      ensures ok ==> forall i | 0 <= i < |files| ::
                       files[i].fid in Owned(rows, owner, isdir) && files[i] == rows[files[i].fid]
      ensures ok && limit == 0 && offset == 0 ==> Fids(files) == Owned(rows, owner, isdir)
    {
      ok := *;
      if !ok {
        return [], false;
      }
      var all := Enumerate(rows, Owned(rows, owner, isdir));
      files := Window(all, limit, offset);
      if limit == 0 && offset == 0 {
        assert files == all;
      }
    }

    /** `GetFileList`: every row, paged. */
    method GetFileList(limit: nat, offset: nat) returns (files: seq<File>, ok: bool)
      requires Valid()
      ensures ok ==> Distinct(files) && |files| == WindowSize(|rows.Keys|, limit, offset)
      ensures ok ==> forall i | 0 <= i < |files| :: files[i].fid in rows && files[i] == rows[files[i].fid]
      ensures ok && limit == 0 && offset == 0 ==> Fids(files) == rows.Keys
    {
      ok := *;
      if !ok {
        return [], false;
      }
      var all := Enumerate(rows, rows.Keys);
      files := Window(all, limit, offset);
      if limit == 0 && offset == 0 {
        assert files == all;
      }
    }

    /** `GetFileByID`: owner's row with FID fid, if any. */
    method GetFileByID(owner: string, fid: string) returns (found: Option<File>, ok: bool)
      requires Valid()
      ensures ok ==> (found.Some? <==> fid in rows && rows[fid].owner == owner)
      ensures ok && found.Some? ==> found.value == rows[fid]
    {
      ok := *;
      if !ok {
        return None, false;
      }
      found := if fid in rows && rows[fid].owner == owner then Some(rows[fid]) else None;
    }

    /** `GetFileByPFIDAndName`: the first of owner's rows under pfid named name, if any. */
    method GetFileByPFIDAndName(owner: string, pfid: string, name: string) returns (found: Option<File>, ok: bool)
      requires Valid()
      ensures ok ==> (found.None? <==> forall k | k in Children(rows, owner, pfid) :: rows[k].filename != name)
      ensures ok && found.Some? ==> found.value.fid in Children(rows, owner, pfid) &&
                                    found.value == rows[found.value.fid] && found.value.filename == name
    {
      ok := *;
      if !ok {
        return None, false;
      }
      var matches := set k | k in Children(rows, owner, pfid) && rows[k].filename == name;
      if matches == {} {
        forall k | k in Children(rows, owner, pfid) ensures rows[k].filename != name {
          assert k !in matches;
        }
        found := None;
      } else {
        var k :| k in matches;
        found := Some(rows[k]);
      }
    }

    /**
     * `DeleteFile`: a directory is removed after everything below it, a file
     * row before its blob. A child's failure is ignored and the walk goes on;
     * only a failed listing or a failed delete of f itself is reported. A
     * failed blob removal is only logged.
     */
    method DeleteFile(f: File) returns (ok: bool, ghost complete: bool)
      requires Valid()
      modifies this, blobs, log
      ensures Valid() && rank == old(rank)
      ensures SubTable(rows, old(rows))
      ensures old(rows).Keys - rows.Keys <= Walked(old(rows), old(rank), f)
      ensures blobs.blobs <= old(blobs.blobs)
      ensures old(blobs.blobs) - blobs.blobs <= {f.fid} + Walked(old(rows), old(rank), f)
      ensures complete ==> ok && rows.Keys == old(rows).Keys - Walked(old(rows), old(rank), f)
      ensures ok ==> f.fid !in rows || rows[f.fid].owner != f.owner
      ensures |log.events| >= |old(log.events)| && log.events[..|old(log.events)|] == old(log.events)
      ensures DeleteEvents(log.events[|old(log.events)|..], {f.fid} + Walked(old(rows), old(rank), f))
      ensures ok && f.isDir ==> |log.events| > |old(log.events)| &&
                                log.events[|log.events| - 1] == Journal.RowDeleted(f.fid)
      ensures !f.isDir ==> log.events[|old(log.events)|..] ==
                           if ok then [Journal.RowDeleted(f.fid), Journal.BlobRemoval(f.fid)] else []
      ensures !f.isDir && !ok ==> rows == old(rows)
      ensures !f.isDir ==> old(blobs.blobs) - {f.fid} <= blobs.blobs
      ensures complete && (f.fid in old(rows) ==> old(rows)[f.fid].isDir == f.isDir) ==>
                BlobsRemoved(log.events[|old(log.events)|..], old(rows), Walked(old(rows), old(rank), f))
      decreases if f.isDir then Desc(rows, rank, f.owner, f.fid) else {}, 2
    {
      if f.isDir {
        ok, complete := DeleteDirectory(f);
      } else {
        ok := DeleteLeaf(f);
        complete := ok;
      }
    }

    /** The file branch of `DeleteFile`: the row, then its blob. */
    method DeleteLeaf(f: File) returns (ok: bool)
      requires Valid() && !f.isDir
      modifies this, blobs, log
      ensures Valid() && rank == old(rank)
      ensures ok ==> rows == if f.fid in old(rows) && old(rows)[f.fid].owner == f.owner
                             then old(rows) - {f.fid} else old(rows)
      ensures !ok ==> rows == old(rows)
      ensures old(blobs.blobs) - {f.fid} <= blobs.blobs <= old(blobs.blobs)
      ensures log.events == old(log.events) +
                            if ok then [Journal.RowDeleted(f.fid), Journal.BlobRemoval(f.fid)] else []
    {
      ok := DeleteRow(f);
      if ok {
        var _ := blobs.Remove(f.fid);
      }
    }

    /** The directory branch of `DeleteFile`: everything below it, then its row. */
    method DeleteDirectory(f: File) returns (ok: bool, ghost complete: bool)
      requires Valid() && f.isDir
      modifies this, blobs, log
      ensures Valid() && rank == old(rank)
      ensures SubTable(rows, old(rows))
      ensures old(rows).Keys - rows.Keys <= Walked(old(rows), old(rank), f)
      ensures blobs.blobs <= old(blobs.blobs)
      ensures old(blobs.blobs) - blobs.blobs <= Walked(old(rows), old(rank), f)
      ensures complete ==> ok && rows.Keys == old(rows).Keys - Walked(old(rows), old(rank), f)
      ensures ok ==> f.fid !in rows || rows[f.fid].owner != f.owner
      ensures |log.events| >= |old(log.events)| && log.events[..|old(log.events)|] == old(log.events)
      ensures DeleteEvents(log.events[|old(log.events)|..], {f.fid} + Walked(old(rows), old(rank), f))
      ensures ok ==> |log.events| > |old(log.events)| &&
                     log.events[|log.events| - 1] == Journal.RowDeleted(f.fid)
      ensures complete && (f.fid in old(rows) ==> old(rows)[f.fid].isDir) ==>
                BlobsRemoved(log.events[|old(log.events)|..], old(rows), Walked(old(rows), old(rank), f))
      decreases Desc(rows, rank, f.owner, f.fid), 1
    {
      ghost var t0, e0 := rows, log.events;
      var children, listed := GetFilesByPFID(f.owner, f.fid, 0, 0);
      if !listed {
        return false, false;
      }
      complete := DeleteChildren(f, children);
      if complete {
        WalkedAllCoversDesc(t0, rank, f, children);
      }
      ghost var ej := log.events;
      ok := DeleteRow(f);
      complete := complete && ok;
      DeleteEventsJoin(ej, log.events, e0, Desc(t0, rank, f.owner, f.fid), {f.fid}, {f.fid} + Walked(t0, rank, f));
      if complete {
        BlobsRemovedExtend(ej, log.events, e0, t0, Desc(t0, rank, f.owner, f.fid));
      }
    }

    /** The loop of `DeleteFile` over a directory's listed children; every child is attempted. */
    method DeleteChildren(f: File, children: seq<File>) returns (ghost complete: bool)
      requires Valid() && f.isDir
      requires Distinct(children) && FromTable(rows, children)
      requires forall i | 0 <= i < |children| :: children[i].fid in Children(rows, f.owner, f.fid)
      modifies this, blobs, log
      ensures Valid() && rank == old(rank)
      ensures SubTable(rows, old(rows))
      ensures old(rows).Keys - rows.Keys <= WalkedAll(old(rows), rank, children)
      ensures WalkedAll(old(rows), rank, children) <= Desc(old(rows), rank, f.owner, f.fid)
      ensures complete ==> rows.Keys == old(rows).Keys - WalkedAll(old(rows), rank, children)
      ensures blobs.blobs <= old(blobs.blobs)
      ensures old(blobs.blobs) - blobs.blobs <= Desc(old(rows), rank, f.owner, f.fid)
      ensures |log.events| >= |old(log.events)| && log.events[..|old(log.events)|] == old(log.events)
      ensures DeleteEvents(log.events[|old(log.events)|..], Desc(old(rows), rank, f.owner, f.fid))
      ensures complete ==> BlobsRemoved(log.events[|old(log.events)|..], old(rows), WalkedAll(old(rows), rank, children))
      decreases Desc(rows, rank, f.owner, f.fid), 0
    {
      ghost var t0, e0, r0 := rows, log.events, rank;
      ghost var below := Desc(t0, r0, f.owner, f.fid);
      complete := true;
      ghost var gone: set<string> := {};
      var i := 0;
      while i < |children|
        invariant 0 <= i <= |children|
        invariant Valid() && rank == r0
        invariant SubTable(rows, t0)
        invariant gone == WalkedAll(t0, r0, children[..i])
        invariant t0.Keys - rows.Keys <= gone && gone <= below
        invariant forall k | i <= k < |children| :: gone !! Walked(t0, r0, children[k])
        invariant complete ==> rows.Keys == t0.Keys - gone
        invariant blobs.blobs <= old(blobs.blobs)
        invariant old(blobs.blobs) - blobs.blobs <= below
        invariant |log.events| >= |e0| && log.events[..|e0|] == e0
        invariant DeleteEvents(log.events[|e0|..], below)
        invariant complete ==> BlobsRemoved(log.events[|e0|..], t0, gone)
      {
        var c := children[i];
        ghost var w := Walked(t0, r0, c);
        ChildWalkInside(t0, r0, f, c);
        SubmapDesc(t0, r0, rows, c.owner, c.fid);
        SubmapWalked(t0, r0, rows, c);
        ghost var ti, ei := rows, log.events;
        if complete {
          KeptWalk(t0, r0, rows, c, gone);
        }
        assert {c.fid} + Walked(ti, r0, c) <= below;
        var _, childComplete := DeleteFile(c);
        assert w <= below;
        WalkedAllStep(t0, r0, children, i);
        forall k | i + 1 <= k < |children| ensures w !! Walked(t0, r0, children[k]) {
          SiblingWalksDisjoint(t0, r0, f, c, children[k]);
        }
        if complete && childComplete {
          BlobsRemovedStep(t0, r0, ti, c, gone, e0, ei, log.events);
        }
        complete := complete && childComplete;
        DeleteEventsJoin(ei, log.events, e0, below, {c.fid} + Walked(ti, r0, c), below);
        gone := gone + w;
        i := i + 1;
      }
      assert children[..i] == children;
    }
  }

  /** The rows of owner, or only its directories. */
  function Owned(t: Table, owner: string, onlyDirs: bool): set<string> {
    set x | x in t && t[x].owner == owner && (onlyDirs ==> t[x].isDir)
  }

  /**
   * A transaction (`unixOfWork`): a working copy of the live table that
   * shares the blob directory. Commit makes the copy the live table;
   * rollback discards it.
   */
  class UnitOfWork {
    const live: FileRepository
    const tx: FileRepository

    ghost predicate Valid()
      reads this, live, tx
    {
      live.Valid() && tx.Valid() && live != tx && tx.blobs == live.blobs && tx.log == live.log
    }

    constructor (live: FileRepository, tx: FileRepository)
      requires live.Valid() && tx.Valid() && live != tx && tx.blobs == live.blobs && tx.log == live.log
      ensures Valid() && this.live == live && this.tx == tx
    {
      this.live := live;
      this.tx := tx;
    }

    /** `Commit`: on success the working copy becomes the live table. */
    method Commit() returns (ok: bool)
      requires Valid()
      modifies live, live.log
      ensures Valid()
      ensures ok ==> live.rows == tx.rows && live.rank == tx.rank
      ensures !ok ==> live.rows == old(live.rows) && live.rank == old(live.rank)
      ensures live.log.events == old(live.log.events) + (if ok then [Journal.Committed] else [])
    {
      ok := *;
      if ok {
        live.rows, live.rank := tx.rows, tx.rank;
        live.log.Record(Journal.Committed);
      }
    }

    /** `Rollback`: the working copy is dropped; its failure is only logged by every caller. */
    method Rollback()
      requires Valid()
      modifies live.log
      ensures live.log.events == old(live.log.events) + [Journal.RolledBack]
    {
      live.log.Record(Journal.RolledBack);
    }
  }

  /** `DataContext.Unit`: begins a transaction on the live table, which may fail. */
  method Unit(live: FileRepository) returns (u: UnitOfWork?)
    requires live.Valid()
    modifies live.log
    ensures u != null ==> fresh(u) && fresh(u.tx) && u.live == live && u.Valid()
    ensures u != null ==> u.tx.rows == live.rows && u.tx.rank == live.rank
    ensures live.log.events == old(live.log.events) + (if u != null then [Journal.Began] else [])
  {
    var began: bool := *;
    if began {
      var tx := new FileRepository.Snapshot(live);
      u := new UnitOfWork(live, tx);
      live.log.Record(Journal.Began);
    } else {
      u := null;
    }
  }
}
