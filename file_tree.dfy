/**
 * The file metadata table (models/file.go) and the tree it encodes.
 *
 * Every row is keyed by its FID. A row's parent, as the repository's
 * `GetFilesByPFID` sees it, is the row of the same owner whose FID equals the
 * child's PFID; rows whose PFID is the owner's id sit at the owner's root.
 * `Directory` stores the absolute path of the parent (a materialized path).
 *
 * A ghost `Rank` orders every row strictly after its parent row. It is the
 * termination measure of the recursive walks of the engine and makes the
 * parent relation acyclic.
 */
module FileTree {
  import opened Paths

  datatype File = File(
    fid: string,
    owner: string,
    pfid: string,
    isDir: bool,
    filename: string,
    directory: string,
    size: int)

  type Table = map<string, File>
  type Rank = map<string, nat>

  /** Each row is stored under its own FID (the unique index on `fid`). */
  ghost predicate Keyed(t: Table) {
    forall k | k in t :: t[k].fid == k
  }

  /** The rows `GetFilesByPFID(owner, pfid)` selects. */
  function Children(t: Table, owner: string, pfid: string): set<string> {
    set x | x in t && t[x].owner == owner && t[x].pfid == pfid
  }

  /** x has a parent row: a row of the same owner whose FID is x's PFID. */
  predicate HasParentRow(t: Table, x: string)
    requires x in t
  {
    t[x].pfid in t && t[t[x].pfid].owner == t[x].owner
  }

  ghost predicate Ranked(t: Table, rank: Rank) {
    t.Keys <= rank.Keys &&
    forall x {:trigger HasParentRow(t, x)} | x in t && HasParentRow(t, x) :: rank[t[x].pfid] < rank[x]
  }

  /** Every parent row is a directory. */
  ghost predicate ParentsAreDirs(t: Table) {
    forall x | x in t && HasParentRow(t, x) :: t[t[x].pfid].isDir
  }

  /** No row is its owner's root: a row's FID never equals its owner's id. */
  ghost predicate RootsAreNotRows(t: Table) {
    forall x | x in t :: t[x].fid != t[x].owner
  }

  /** The structural invariant every store of the engine keeps. */
  ghost predicate Shaped(t: Table, rank: Rank) {
    Keyed(t) && Ranked(t, rank) && ParentsAreDirs(t) && RootsAreNotRows(t)
  }

  /**
   * x lies below id in owner's tree: walking up x's parent rows reaches a row
   * whose PFID is id.
   */
  ghost predicate Under(t: Table, rank: Rank, owner: string, id: string, x: string)
    requires Ranked(t, rank) && x in t
    decreases rank[x]
  {
    t[x].owner == owner &&
    (t[x].pfid == id || (HasParentRow(t, x) && Under(t, rank, owner, id, t[x].pfid)))
  }

  /** Every row below id in owner's tree. */
  ghost function Desc(t: Table, rank: Rank, owner: string, id: string): set<string>
    requires Ranked(t, rank)
  {
    set x | x in t && Under(t, rank, owner, id, x)
  }

  /**
   * The rows a recursive walk from f visits: f's own row, if the table has
   * one, and, for a directory, every row below it.
   */
  ghost function Walked(t: Table, rank: Rank, f: File): set<string>
    requires Ranked(t, rank)
  {
    (if f.fid in t && t[f.fid].owner == f.owner then {f.fid} else {}) +
    (if f.isDir then Desc(t, rank, f.owner, f.fid) else {})
  }

  // ---------------------------------------------------------------------
  // Path consistency: the property the materialized path is meant to keep.
  // ---------------------------------------------------------------------

  /** The directory x's row stores is the one its position in the tree gives. */
  ghost predicate PathOK(t: Table, x: string)
    requires x in t
  {
    if t[x].pfid == t[x].owner then t[x].directory == "/"
    else HasParentRow(t, x) && t[t[x].pfid].isDir &&
         t[x].directory == Join(t[t[x].pfid].directory, t[t[x].pfid].filename)
  }

  ghost predicate PathsConsistent(t: Table) {
    forall x | x in t :: PathOK(t, x)
  }

  /** No two rows of one owner share a parent and a name. */
  ghost predicate SiblingsUnique(t: Table) {
    forall x, y | x in t && y in t && x != y && t[x].owner == t[y].owner && t[x].pfid == t[y].pfid ::
      t[x].filename != t[y].filename
  }

  ghost predicate WellFormed(t: Table, rank: Rank) {
    Shaped(t, rank) && PathsConsistent(t) && SiblingsUnique(t)
  }

  // ---------------------------------------------------------------------
  // The ancestry relation.
  // ---------------------------------------------------------------------

  /** A row ranks above every row it lies below. */
  lemma {:induction false} UnderRank(t: Table, rank: Rank, owner: string, a: string, x: string)
    requires Ranked(t, rank) && x in t && a in t && t[a].owner == owner
    requires Under(t, rank, owner, a, x)
    ensures rank[a] < rank[x]
    decreases rank[x]
  {
    if t[x].pfid == a {
      assert HasParentRow(t, x);
    } else {
      UnderRank(t, rank, owner, a, t[x].pfid);
    }
  }

  /** The parent relation is acyclic: no row lies below itself. */
  lemma NotUnderSelf(t: Table, rank: Rank, n: string)
    requires Ranked(t, rank) && n in t
    ensures !Under(t, rank, t[n].owner, n, n)
    ensures n !in Desc(t, rank, t[n].owner, n)
  {
    if Under(t, rank, t[n].owner, n, n) {
      UnderRank(t, rank, t[n].owner, n, n);
    }
  }

  /** Below is transitive. */
  lemma {:induction false} UnderTrans(t: Table, rank: Rank, owner: string, a: string, b: string, x: string)
    requires Ranked(t, rank) && b in t && x in t
    requires Under(t, rank, owner, a, b) && Under(t, rank, owner, b, x)
    ensures Under(t, rank, owner, a, x)
    decreases rank[x]
  {
    if t[x].pfid == b {
      assert HasParentRow(t, x);
    } else {
      UnderTrans(t, rank, owner, a, b, t[x].pfid);
    }
  }

  /** The ancestors of a row form a chain: of two of them, one lies below the other. */
  lemma {:induction false} UnderLinear(t: Table, rank: Rank, owner: string, a: string, b: string, x: string)
    requires Ranked(t, rank) && x in t && a != b
    requires Under(t, rank, owner, a, x) && Under(t, rank, owner, b, x)
    ensures (b in t && Under(t, rank, owner, a, b)) || (a in t && Under(t, rank, owner, b, a))
    decreases rank[x]
  {
    var p := t[x].pfid;
    if p == a {
    } else if p == b {
    } else {
      UnderLinear(t, rank, owner, a, b, p);
    }
  }

  /** A child of id lies below id, and so does everything below that child. */
  lemma ChildSubtreeInside(t: Table, rank: Rank, owner: string, id: string, c: string)
    requires Ranked(t, rank) && c in Children(t, owner, id)
    ensures c in Desc(t, rank, owner, id)
    ensures Desc(t, rank, owner, c) < Desc(t, rank, owner, id)
  {
    forall x | x in Desc(t, rank, owner, c) ensures x in Desc(t, rank, owner, id) {
      UnderTrans(t, rank, owner, id, c, x);
    }
    NotUnderSelf(t, rank, c);
  }

  /** The subtrees of two different children do not meet, and neither child lies in the other's. */
  lemma ChildSubtreesDisjoint(t: Table, rank: Rank, owner: string, id: string, c1: string, c2: string)
    requires Ranked(t, rank)
    requires c1 in Children(t, owner, id) && c2 in Children(t, owner, id) && c1 != c2
    ensures c2 !in Desc(t, rank, owner, c1)
    ensures Desc(t, rank, owner, c1) !! Desc(t, rank, owner, c2)
  {
    forall a, b | {a, b} == {c1, c2} ensures !Under(t, rank, owner, a, b) {
      SiblingNotUnder(t, rank, owner, id, a, b);
    }
    forall x | x in Desc(t, rank, owner, c1) && x in Desc(t, rank, owner, c2) ensures false {
      UnderLinear(t, rank, owner, c1, c2, x);
    }
  }

  lemma SiblingNotUnder(t: Table, rank: Rank, owner: string, id: string, a: string, b: string)
    requires Ranked(t, rank)
    requires a in Children(t, owner, id) && b in Children(t, owner, id) && a != b
    ensures !Under(t, rank, owner, a, b)
  {
    if Under(t, rank, owner, a, b) {
      if id == a {
        assert HasParentRow(t, a);
      } else {
        assert HasParentRow(t, b) && Under(t, rank, owner, a, id);
        UnderRank(t, rank, owner, a, id);
        assert HasParentRow(t, a);
      }
    }
  }

  /** Below id means: a child of id, or below one of id's children. */
  lemma {:induction false} DescUnfold(t: Table, rank: Rank, owner: string, id: string, x: string)
    requires Ranked(t, rank)
    ensures x in Desc(t, rank, owner, id) <==>
            x in Children(t, owner, id) ||
            exists c | c in Children(t, owner, id) :: x in Desc(t, rank, owner, c)
  {
    if x in Desc(t, rank, owner, id) && x !in Children(t, owner, id) {
      var c := Top(t, rank, owner, id, x);
      assert x in Desc(t, rank, owner, c);
    }
    forall c | c in Children(t, owner, id) && x in Desc(t, rank, owner, c)
      ensures x in Desc(t, rank, owner, id)
    {
      ChildSubtreeInside(t, rank, owner, id, c);
    }
  }

  /** The child of id on the way up from x. */
  ghost function Top(t: Table, rank: Rank, owner: string, id: string, x: string): (c: string)
    requires Ranked(t, rank) && x in t && Under(t, rank, owner, id, x) && t[x].pfid != id
    ensures c in Children(t, owner, id) && Under(t, rank, owner, c, x)
    decreases rank[x]
  {
    var p := t[x].pfid;
    if t[p].pfid == id then p
    else
      var c := Top(t, rank, owner, id, p);
      UnderTrans(t, rank, owner, c, p, x);
      c
  }

  // ---------------------------------------------------------------------
  // How the relation behaves when the table changes.
  // ---------------------------------------------------------------------

  /** Two tables with the same keys whose rows agree on owner and parent, except possibly at id. */
  ghost predicate SameLinksExcept(t: Table, u: Table, id: string) {
    t.Keys == u.Keys &&
    forall k | k in t && k != id :: u[k].owner == t[k].owner && u[k].pfid == t[k].pfid
  }

  /**
   * What lies below id does not depend on the row id itself, on the ranking
   * used, or on anything but owners and parents.
   */
  lemma {:induction false} UnderFrame(t: Table, r: Rank, u: Table, q: Rank, owner: string, id: string, x: string)
    requires Ranked(t, r) && Ranked(u, q) && SameLinksExcept(t, u, id)
    requires x in t && x != id
    ensures Under(t, r, owner, id, x) == Under(u, q, owner, id, x)
    decreases r[x]
  {
    var p := t[x].pfid;
    if p != id && HasParentRow(t, x) {
      UnderFrame(t, r, u, q, owner, id, p);
    }
  }

  lemma DescFrame(t: Table, r: Rank, u: Table, q: Rank, owner: string, id: string)
    requires Ranked(t, r) && Ranked(u, q) && SameLinksExcept(t, u, id)
    requires id in t ==> t[id].owner == owner && u[id].owner == owner
    ensures Desc(t, r, owner, id) == Desc(u, q, owner, id)
  {
    forall x | x in t ensures Under(t, r, owner, id, x) == Under(u, q, owner, id, x) {
      if x == id {
        NotUnderSelf(t, r, id);
        NotUnderSelf(u, q, id);
      } else {
        UnderFrame(t, r, u, q, owner, id, x);
      }
    }
  }

  /** u is t with some rows removed. */
  ghost predicate SubTable(u: Table, t: Table) {
    u.Keys <= t.Keys && forall k | k in u :: u[k] == t[k]
  }

  /** Removing rows keeps the ranking, and below in the smaller table means below in the larger. */
  lemma SubmapRanked(t: Table, rank: Rank, u: Table)
    requires Ranked(t, rank) && SubTable(u, t)
    ensures Ranked(u, rank)
  {
    forall x | x in u && HasParentRow(u, x) ensures rank[u[x].pfid] < rank[x] {
      assert HasParentRow(t, x);
    }
  }

  lemma {:induction false} SubmapUnder(t: Table, rank: Rank, u: Table, owner: string, id: string, x: string)
    requires Ranked(t, rank) && SubTable(u, t) && x in u
    requires Ranked(u, rank) && Under(u, rank, owner, id, x)
    ensures Under(t, rank, owner, id, x)
    decreases rank[x]
  {
    if u[x].pfid != id {
      SubmapUnder(t, rank, u, owner, id, u[x].pfid);
    }
  }

  lemma SubmapDesc(t: Table, rank: Rank, u: Table, owner: string, id: string)
    requires Ranked(t, rank) && SubTable(u, t)
    ensures Ranked(u, rank)
    ensures Desc(u, rank, owner, id) <= Desc(t, rank, owner, id)
  {
    SubmapRanked(t, rank, u);
    forall x | x in Desc(u, rank, owner, id) ensures x in Desc(t, rank, owner, id) {
      SubmapUnder(t, rank, u, owner, id, x);
    }
  }
}

module FileTreeWalks {
  import opened FileTree

  /** A plain file of owner has nothing below it when every parent row is a directory. */
  lemma PlainHasNoDesc(t: Table, rank: Rank, owner: string, c: string)
    requires Ranked(t, rank) && ParentsAreDirs(t)
    requires c in t && t[c].owner == owner && !t[c].isDir
    ensures Desc(t, rank, owner, c) == {}
  {
    forall x | x in t && Under(t, rank, owner, c, x) ensures false {
      var y := if t[x].pfid == c then x else Top(t, rank, owner, c, x);
      assert t[y].pfid == c && HasParentRow(t, y);
    }
  }

  /** Keeping every row below id keeps what lies below id. */
  lemma {:induction false} KeptUnder(t: Table, rank: Rank, u: Table, owner: string, id: string, x: string)
    requires Ranked(t, rank) && Ranked(u, rank) && SubTable(u, t)
    requires Desc(t, rank, owner, id) <= u.Keys
    requires x in u && Under(t, rank, owner, id, x)
    ensures Under(u, rank, owner, id, x)
    decreases rank[x]
  {
    if t[x].pfid != id {
      var p := t[x].pfid;
      assert p in Desc(t, rank, owner, id);
      KeptUnder(t, rank, u, owner, id, p);
    }
  }

  lemma KeptDesc(t: Table, rank: Rank, u: Table, owner: string, id: string)
    requires Ranked(t, rank) && SubTable(u, t)
    requires Desc(t, rank, owner, id) <= u.Keys
    ensures Ranked(u, rank)
    ensures Desc(u, rank, owner, id) == Desc(t, rank, owner, id)
  {
    SubmapDesc(t, rank, u, owner, id);
    forall x | x in Desc(t, rank, owner, id) ensures x in Desc(u, rank, owner, id) {
      KeptUnder(t, rank, u, owner, id, x);
    }
  }

  /** Removing rows only shrinks a walk. */
  lemma SubmapWalked(t: Table, rank: Rank, u: Table, f: File)
    requires Ranked(t, rank) && SubTable(u, t)
    ensures Ranked(u, rank)
    ensures Walked(u, rank, f) <= Walked(t, rank, f)
  {
    SubmapDesc(t, rank, u, f.owner, f.fid);
  }

  /** A walk is unaffected by removing rows outside it. */
  lemma KeptWalk(t: Table, rank: Rank, u: Table, f: File, gone: set<string>)
    requires Ranked(t, rank) && SubTable(u, t) && u.Keys == t.Keys - gone
    requires gone !! Walked(t, rank, f)
    ensures Ranked(u, rank)
    ensures Walked(u, rank, f) == Walked(t, rank, f)
  {
    SubmapRanked(t, rank, u);
    if f.isDir {
      KeptDesc(t, rank, u, f.owner, f.fid);
    }
  }

  /** The walk from a child of the directory f stays strictly inside f's subtree. */
  lemma ChildWalkInside(t: Table, rank: Rank, f: File, c: File)
    requires Ranked(t, rank) && f.isDir
    requires c.fid in Children(t, f.owner, f.fid) && t[c.fid] == c
    ensures c.fid in Desc(t, rank, f.owner, f.fid)
    ensures Walked(t, rank, c) <= Desc(t, rank, f.owner, f.fid)
    ensures c.isDir ==> Desc(t, rank, c.owner, c.fid) < Desc(t, rank, f.owner, f.fid)
  {
    ChildSubtreeInside(t, rank, f.owner, f.fid, c.fid);
  }

  /** The walks from two different children of f visit disjoint rows. */
  lemma SiblingWalksDisjoint(t: Table, rank: Rank, f: File, c: File, d: File)
    requires Ranked(t, rank)
    requires c.fid in Children(t, f.owner, f.fid) && t[c.fid] == c
    requires d.fid in Children(t, f.owner, f.fid) && t[d.fid] == d
    requires c.fid != d.fid
    ensures Walked(t, rank, c) !! Walked(t, rank, d)
  {
    ChildSubtreesDisjoint(t, rank, f.owner, f.fid, c.fid, d.fid);
    ChildSubtreesDisjoint(t, rank, f.owner, f.fid, d.fid, c.fid);
  }
}

/** How renaming or moving a node is meant to rewrite the stored directories below it. */
module FileTreePaths {
  import opened Paths
  import opened FileTree
  import opened FileTreeWalks

  /** Rows agree on everything except the stored directory. */
  ghost predicate SameShape(t: Table, u: Table) {
    u.Keys == t.Keys && forall k | k in t :: u[k] == t[k].(directory := u[k].directory)
  }

  /**
   * The directory a row below nv must store once nv (a new version of a row,
   * with its new name and directory) is in place: nv's path, then the names
   * of the rows in between.
   */
  ghost function TargetDir(t: Table, rank: Rank, nv: File, x: string): string
    requires Ranked(t, rank) && x in t && Under(t, rank, nv.owner, nv.fid, x)
    decreases rank[x]
  {
    if t[x].pfid == nv.fid then Join(nv.directory, nv.filename)
    else Join(TargetDir(t, rank, nv, t[x].pfid), t[t[x].pfid].filename)
  }

  /** The row of x once the directories below nv are rewritten; other rows stay. */
  ghost function Rewritten(t: Table, rank: Rank, nv: File, x: string): File
    requires Ranked(t, rank) && x in t
  {
    if Under(t, rank, nv.owner, nv.fid, x) then t[x].(directory := TargetDir(t, rank, nv, x)) else t[x]
  }

  /**
   * u is t with the row nv.fid replaced by nv and every directory below it
   * rewritten; nothing else changes.
   */
  ghost predicate Rehomed(t: Table, rank: Rank, u: Table, nv: File)
    requires Ranked(t, rank)
  {
    u.Keys == t.Keys && nv.fid in t && u[nv.fid] == nv &&
    forall x | x in t && x != nv.fid :: u[x] == Rewritten(t, rank, nv, x)
  }

  /** The target directories depend only on links and names, not on stored directories or the ranking. */
  lemma {:induction false} TargetDirFrame(t: Table, r: Rank, u: Table, q: Rank, nv: File, x: string)
    requires Ranked(t, r) && Ranked(u, q) && SameShape(t, u)
    requires x in t && Under(t, r, nv.owner, nv.fid, x) && x != nv.fid
    ensures Under(u, q, nv.owner, nv.fid, x)
    ensures TargetDir(t, r, nv, x) == TargetDir(u, q, nv, x)
    decreases r[x]
  {
    UnderFrame(t, r, u, q, nv.owner, nv.fid, x);
    if t[x].pfid != nv.fid {
      TargetDirFrame(t, r, u, q, nv, t[x].pfid);
    }
  }

  /** The targets below a child c of nv are the targets below c once c is in place. */
  lemma {:induction false} TargetDirShift(t: Table, rank: Rank, nv: File, c: string, x: string)
    requires Ranked(t, rank) && nv.fid in t && t[nv.fid].owner == nv.owner
    requires c in Children(t, nv.owner, nv.fid)
    requires x in t && Under(t, rank, nv.owner, c, x)
    ensures Under(t, rank, nv.owner, nv.fid, x) && t[c].owner == nv.owner
    ensures var cv := t[c].(fid := c, directory := Join(nv.directory, nv.filename));
            TargetDir(t, rank, nv, x) == TargetDir(t, rank, cv, x)
    decreases rank[x]
  {
    ChildSubtreeInside(t, rank, nv.owner, nv.fid, c);
    NotUnderSelf(t, rank, nv.fid);
    assert HasParentRow(t, c);
    var p := t[x].pfid;
    if p != c {
      TargetDirShift(t, rank, nv, c, p);
    }
  }

  /** The rewrite of a plain file or of a childless directory touches nothing but the row itself. */
  lemma NothingBelowPlain(t: Table, rank: Rank, nv: File)
    requires Ranked(t, rank) && ParentsAreDirs(t)
    requires nv.fid in t && t[nv.fid].owner == nv.owner && !t[nv.fid].isDir
    ensures forall x | x in t :: Rewritten(t, rank, nv, x) == t[x]
  {
    forall x | x in t ensures !Under(t, rank, nv.owner, nv.fid, x) {
      if Under(t, rank, nv.owner, nv.fid, x) {
        var y := if t[x].pfid == nv.fid then x else Top(t, rank, nv.owner, nv.fid, x);
        assert t[y].pfid == nv.fid && HasParentRow(t, y);
      }
    }
  }

  /**
   * One step of rewriting the children of nv: once the rows walked so far
   * (gone) are rewritten, rewriting the subtree of the next child c (as a
   * version of c placed under nv) rewrites exactly that walk as well.
   */
  lemma AdjustStep(t0: Table, ti: Table, tj: Table, r: Rank, nv: File, c: File, gone: set<string>)
    requires Ranked(t0, r) && ParentsAreDirs(t0) && SameShape(t0, ti) && Ranked(ti, r)
    requires nv.fid in t0 && t0[nv.fid].owner == nv.owner
    requires c.fid in Children(t0, nv.owner, nv.fid) && t0[c.fid] == c
    requires forall x | x in t0 :: ti[x] == if x in gone then Rewritten(t0, r, nv, x) else t0[x]
    requires gone !! Walked(t0, r, c)
    requires Rehomed(ti, r, tj, c.(directory := Join(nv.directory, nv.filename)))
    ensures SameShape(t0, tj)
    ensures forall x | x in t0 :: tj[x] == if x in gone + Walked(t0, r, c) then Rewritten(t0, r, nv, x) else t0[x]
  {
    var cv := c.(directory := Join(nv.directory, nv.filename));
    assert Under(t0, r, nv.owner, nv.fid, c.fid);
    DescFrame(t0, r, ti, r, c.owner, c.fid);
    if !c.isDir {
      PlainHasNoDesc(t0, r, c.owner, c.fid);
    }
    forall x | x in t0
      ensures tj[x] == if x in gone + Walked(t0, r, c) then Rewritten(t0, r, nv, x) else t0[x]
    {
      if x != c.fid && Under(ti, r, c.owner, c.fid, x) {
        assert x in Desc(ti, r, c.owner, c.fid);
        TargetDirFrame(ti, r, t0, r, cv, x);
        TargetDirShift(t0, r, nv, c.fid, x);
      }
    }
  }

  /** The names of the rows above x, the outermost first. */
  ghost function AncestorNames(t: Table, rank: Rank, x: string): seq<string>
    requires Ranked(t, rank) && x in t
    decreases rank[x]
  {
    if t[x].pfid != t[x].owner && HasParentRow(t, x) then
      AncestorNames(t, rank, t[x].pfid) + [t[t[x].pfid].filename]
    else []
  }

  /** The absolute path spelled by a sequence of names: "/" joined with each in turn. */
  function JoinAll(names: seq<string>): string {
    if names == [] then "/" else Join(JoinAll(names[..|names| - 1]), names[|names| - 1])
  }

  /**
   * In a well-formed table every row's stored directory is the join of the
   * names of its ancestors: the materialized path says where the row is.
   */
  lemma {:induction false} PathIsAncestry(t: Table, rank: Rank, x: string)
    requires WellFormed(t, rank) && x in t
    ensures t[x].directory == JoinAll(AncestorNames(t, rank, x))
    decreases rank[x]
  {
    assert PathOK(t, x);
    if t[x].pfid != t[x].owner {
      var p := t[x].pfid;
      PathIsAncestry(t, rank, p);
      var above := AncestorNames(t, rank, p);
      assert (above + [t[p].filename])[..|above|] == above;
    }
  }
}
