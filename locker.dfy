/**
 * The process-local named lock of internal/locker/glocker.go: a map from a
 * name to a reference-counted mutex. Blocking is not modelled; the map and
 * its reference counts are.
 */
module Locker {
  import Journal

  type RefMap = map<string, nat>

  /** Entries exist only while somebody holds or waits for them. */
  predicate Counted(m: RefMap) {
    forall name | name in m :: m[name] >= 1
  }

  function RefsOf(m: RefMap, name: string): nat {
    if name in m then m[name] else 0
  }

  /** The map after `Lock(name)`: name gains one reference, no other entry changes. */
  function Acquired(m: RefMap, name: string): (r: RefMap)
    requires Counted(m)
    ensures Counted(r) && name in r
    ensures RefsOf(r, name) == RefsOf(m, name) + 1
    ensures forall other | other != name :: RefsOf(r, other) == RefsOf(m, other)
  {
    m[name := RefsOf(m, name) + 1]
  }

  /** The map after `UnLock(name)`: name loses one reference and its entry goes at zero. */
  function Released(m: RefMap, name: string): (r: RefMap)
    requires Counted(m)
    ensures Counted(r)
    ensures RefsOf(r, name) == if name in m then m[name] - 1 else 0
    ensures RefsOf(r, name) == 0 ==> name !in r
    ensures forall other | other != name :: RefsOf(r, other) == RefsOf(m, other)
  {
    if name !in m then m
    else if m[name] == 1 then m - {name}
    else m[name := m[name] - 1]
  }

  /** Every UnLock undoes its Lock: the map returns to what it was, so entries never leak. */
  lemma ReleaseUndoesAcquire(m: RefMap, name: string)
    requires Counted(m)
    ensures Released(Acquired(m, name), name) == m
  {
    var a := Acquired(m, name);
    if name in m {
      assert Released(a, name) == m[name := m[name]];
    } else {
      assert Released(a, name) == a - {name};
    }
  }

  class GLocker {
    /** Name to the number of holders and waiters of its mutex. */
    var lockers: RefMap
    const log: Journal.Log

    ghost predicate Valid()
      reads this
    {
      Counted(lockers)
    }

    constructor (log: Journal.Log)
      ensures Valid() && lockers == map[] && this.log == log
    {
      lockers := map[];
      this.log := log;
    }

    method Lock(name: string)
      requires Valid()
      modifies this, log
      ensures Valid() && lockers == Acquired(old(lockers), name)
      ensures log.events == old(log.events) + [Journal.Locked(name)]
    {
      var ref := if name in lockers then lockers[name] else 0;
      lockers := lockers[name := ref + 1];
      log.Record(Journal.Locked(name));
    }

    method UnLock(name: string)
      requires Valid()
      modifies this, log
      ensures Valid() && lockers == Released(old(lockers), name)
      ensures log.events == old(log.events) + [Journal.Unlocked(name)]
    {
      if name in lockers {
        var ref := lockers[name] - 1;
        if ref == 0 {
          lockers := lockers - {name};
        } else {
          lockers := lockers[name := ref];
        }
      }
      log.Record(Journal.Unlocked(name));
    }
  }
}
