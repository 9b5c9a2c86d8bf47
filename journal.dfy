/**
 * A ghost record of the observable steps the engine takes, in order: lock
 * traffic, blob writes and removals, row writes and transaction boundaries.
 * The stores and the locker append to one shared journal, so that contracts
 * can state the order of these steps as the source performs them.
 */
module Journal {

  datatype Event =
    | Locked(name: string)
    | Unlocked(name: string)
    | BlobSaved(fid: string)
    | BlobRemoval(fid: string)
    | RowCreated(fid: string)
    | RowUpdated(fid: string)
    | RowDeleted(fid: string)
    | Began
    | Committed
    | RolledBack

  class Log {
    ghost var events: seq<Event>

    constructor ()
      ensures events == []
    {
      events := [];
    }

    ghost method Record(e: Event)
      modifies this
      ensures events == old(events) + [e]
    {
      events := events + [e];
    }
  }

  /** The events of a segment that write a row or a blob. */
  ghost predicate NoWrites(s: seq<Event>) {
    forall i | 0 <= i < |s| :: !(s[i].RowCreated? || s[i].RowUpdated? || s[i].RowDeleted? ||
                                 s[i].BlobSaved? || s[i].BlobRemoval?)
  }

  /** A locked segment around work that writes nothing writes nothing either. */
  lemma NoWritesBracketed(e0: seq<Event>, e1: seq<Event>, e2: seq<Event>, e: seq<Event>, name: string)
    requires e1 == e0 + [Locked(name)]
    requires |e2| >= |e1| && e2[..|e1|] == e1 && NoWrites(e2[|e1|..])
    requires e == e2 + [Unlocked(name)]
    ensures NoWrites(e[|e0|..])
  {
    forall i | |e0| <= i < |e| ensures !(e[i].RowCreated? || e[i].RowUpdated? || e[i].RowDeleted? ||
                                         e[i].BlobSaved? || e[i].BlobRemoval?) {
      if i == |e0| {
        assert e[i] == e2[..|e1|][i];
      } else if i < |e2| {
        assert e[i] == e2[|e1|..][i - |e1|];
      }
    }
  }

  /** Every event of the segment updates one of the given rows. */
  ghost predicate UpdatesWithin(s: seq<Event>, rows: set<string>) {
    forall i | 0 <= i < |s| :: s[i].RowUpdated? && s[i].fid in rows
  }

  /** Two consecutive segments of updates within s make one. */
  lemma UpdatesJoin(a: seq<Event>, b: seq<Event>, e0: seq<Event>, s0: set<string>, s1: set<string>, s: set<string>)
    requires |a| >= |e0| && a[..|e0|] == e0 && UpdatesWithin(a[|e0|..], s0) && s0 <= s
    requires |b| >= |a| && b[..|a|] == a && UpdatesWithin(b[|a|..], s1) && s1 <= s
    ensures |b| >= |e0| && b[..|e0|] == e0 && UpdatesWithin(b[|e0|..], s)
  {
    assert b[..|e0|] == a[..|e0|];
    forall i | |e0| <= i < |b| ensures b[i].RowUpdated? && b[i].fid in s {
      if i < |a| {
        assert b[i] == a[i] == a[|e0|..][i - |e0|];
      } else {
        assert b[i] == b[|a|..][i - |a|];
      }
    }
  }

  ghost predicate NoCommit(s: seq<Event>) {
    forall i | 0 <= i < |s| :: s[i] != Committed
  }

  /**
   * The events of one locked operation: the lock on name first, its release
   * last, and a commit just before the release exactly when it committed.
   */
  ghost predicate Bracketed(e0: seq<Event>, e: seq<Event>, name: string, committed: bool) {
    |e| >= |e0| + 2 && e[..|e0|] == e0 && e[|e0|] == Locked(name) && e[|e| - 1] == Unlocked(name) &&
    (committed ==> e[|e| - 2] == Committed) &&
    (!committed ==> NoCommit(e[|e0|..]))
  }

  /**
   * The events of one unit of work: nothing when it could not begin, else
   * its beginning, work that never commits, and a commit or a rollback.
   */
  ghost predicate Transacted(e0: seq<Event>, e: seq<Event>, committed: bool) {
    (e == e0 && !committed) ||
    (|e| >= |e0| + 2 && e[..|e0|] == e0 && e[|e0|] == Began && NoCommit(e[|e0| + 1..|e| - 1]) &&
     e[|e| - 1] == (if committed then Committed else RolledBack))
  }

  lemma TransactedRun(e0: seq<Event>, e1: seq<Event>, e2: seq<Event>, e: seq<Event>, committed: bool)
    requires e1 == e0 + [Began]
    requires |e2| >= |e1| && e2[..|e1|] == e1 && NoCommit(e2[|e1|..])
    requires e == e2 + [if committed then Committed else RolledBack]
    ensures Transacted(e0, e, committed)
  {
    assert e[..|e0|] == e2[..|e1|][..|e0|];
    assert e[|e0|] == e2[..|e1|][|e0|];
    assert e[|e0| + 1..|e| - 1] == e2[|e1|..];
  }

  /** A unit of work run under the lock on name. */
  lemma BracketTransacted(e0: seq<Event>, e1: seq<Event>, e2: seq<Event>, e: seq<Event>, name: string, committed: bool)
    requires e1 == e0 + [Locked(name)]
    requires Transacted(e1, e2, committed)
    requires e == e2 + [Unlocked(name)]
    ensures Bracketed(e0, e, name, committed)
  {
    assert e[..|e0|] == e2[..|e1|][..|e0|];
    assert e[|e0|] == e2[..|e1|][|e0|];
    if !committed {
      forall i | |e0| <= i < |e| ensures e[i] != Committed {
        if |e1| < i < |e2| - 1 {
          assert e[i] == e2[|e1| + 1..|e2| - 1][i - |e1| - 1];
        } else if i < |e1| {
          assert e[i] == e2[..|e1|][i];
        }
      }
    }
  }
}
