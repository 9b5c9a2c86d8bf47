/**
 * The verification-code repository of
 * repository/cachedrepository/verification_code.go over the key/value cache
 * of cache/cache.go. A code is stored under a key built from its type, its
 * target (an email address) and the code itself.
 *
 * Every cache call may fail; the failure is a nondeterministic choice of the
 * cache. The JSON encoding of a stored code is its identity here.
 */
module CodeStore {
  import opened Wrappers
  import Errors

  /** models/verification_code.go. Times and durations are nanoseconds; a zero time is 0. */
  datatype VerificationCode = VerificationCode(
    id: int,
    createdAt: int,
    typ: string,
    code: string,
    target: string,
    expiration: int)

  /** A cache entity: the stored value and the expiration it was set with. */
  datatype Entry = Entry(value: VerificationCode, expiration: int)

  /** `getCodeKey(typ, code, target)`: type, then target, then code, joined by dots. */
  function CodeKey(typ: string, code: string, target: string): string {
    typ + "." + target + "." + code
  }

  /** An argument of `DeleteVerificationCode` that is empty is replaced by "*". */
  function Wildcarded(s: string): (r: string)
    ensures r != ""
    ensures s != "" ==> r == s
  {
    if s == "" then "*" else s
  }

  /** The position of the first dot, or the length when there is none. */
  function FirstDot(s: string): (k: nat)
    ensures k <= |s|
  {
    if s == [] then 0 else if s[0] == '.' then 0 else 1 + FirstDot(s[1..])
  }

  /** The position of the last dot, or 0 when there is none. */
  function LastDot(s: string): (k: nat)
    ensures k <= |s|
  {
    if s == [] then 0 else if s[|s| - 1] == '.' then |s| - 1 else LastDot(s[..|s| - 1])
  }

  lemma {:induction false} FirstDotOf(a: string, b: string)
    requires '.' !in a
    ensures FirstDot(a + "." + b) == |a|
  {
    if a != [] {
      assert (a + "." + b)[1..] == a[1..] + "." + b;
      FirstDotOf(a[1..], b);
    }
  }

  lemma {:induction false} LastDotOf(a: string, b: string)
    requires '.' !in b
    ensures LastDot(a + "." + b) == |a|
  {
    var s := a + "." + b;
    if b != [] {
      assert s[|s| - 1] == b[|b| - 1];
      assert s[..|s| - 1] == a + "." + b[..|b| - 1];
      LastDotOf(a, b[..|b| - 1]);
    }
  }

  /** Text split at its first dot: the part before it has no dot. */
  lemma SplitAtFirstDot(a1: string, b1: string, a2: string, b2: string)
    requires '.' !in a1 && '.' !in a2
    requires a1 + "." + b1 == a2 + "." + b2
    ensures a1 == a2 && b1 == b2
  {
    var s := a1 + "." + b1;
    FirstDotOf(a1, b1);
    FirstDotOf(a2, b2);
    assert a1 == s[..|a1|] == a2;
    assert b1 == s[|a1| + 1..] == b2;
  }

  /** Text split at its last dot: the part after it has no dot. */
  lemma SplitAtLastDot(a1: string, b1: string, a2: string, b2: string)
    requires '.' !in b1 && '.' !in b2
    requires a1 + "." + b1 == a2 + "." + b2
    ensures a1 == a2 && b1 == b2
  {
    var s := a1 + "." + b1;
    LastDotOf(a1, b1);
    LastDotOf(a2, b2);
    assert a1 == s[..|a1|] == a2;
    assert b1 == s[|a1| + 1..] == b2;
  }

  /**
   * The key identifies the code when neither the type nor the code contains
   * a dot; the target, an email address, may contain any number of dots.
   */
  lemma CodeKeyInjective(typ1: string, code1: string, target1: string, typ2: string, code2: string, target2: string)
    requires '.' !in typ1 && '.' !in typ2 && '.' !in code1 && '.' !in code2
    requires CodeKey(typ1, code1, target1) == CodeKey(typ2, code2, target2)
    ensures typ1 == typ2 && code1 == code2 && target1 == target2
  {
    assert CodeKey(typ1, code1, target1) == (typ1 + "." + target1) + "." + code1;
    assert CodeKey(typ2, code2, target2) == (typ2 + "." + target2) + "." + code2;
    SplitAtLastDot(typ1 + "." + target1, code1, typ2 + "." + target2, code2);
    SplitAtFirstDot(typ1, target1, typ2, target2);
  }

  /** Without that restriction two different codes can share a key. */
  lemma CodeKeyCollides()
    ensures CodeKey("a.b", "c", "d") == CodeKey("a", "c", "b.d")
  {
  }

  /**
   * "*" is not a pattern for the cache: a delete with an empty code builds a
   * key that no stored code (whose code is not "*") has.
   */
  lemma WildcardIsLiteral(typ: string, target: string, code: string)
    requires '.' !in typ && '.' !in code && code != "*"
    ensures CodeKey(typ, Wildcarded(""), target) != CodeKey(typ, code, target)
  {
    if CodeKey(typ, Wildcarded(""), target) == CodeKey(typ, code, target) {
      CodeKeyInjective(typ, "*", target, typ, code, target);
    }
  }

  /** What `Get` reports for one key. */
  datatype Lookup = Hit(entry: Entry) | NotFound | Fault(text: string)

  /** The key/value cache: Redis in production. */
  class Cache {
    var entries: map<string, Entry>

    constructor ()
      ensures entries == map[]
    {
      entries := map[];
    }

    /** `Set`: stores the entity under its key, replacing what was there. */
    method Set(key: string, e: Entry) returns (ok: bool)
      modifies this
      ensures entries == if ok then old(entries)[key := e] else old(entries)
    {
      ok := *;
      if ok {
        entries := entries[key := e];
      }
    }

    /** `Get`: the entry under the key, or "not found"; the call itself may fail whether or not the key is held. */
    method Get(key: string) returns (r: Lookup)
      ensures r.Hit? ==> key in entries && r.entry == entries[key]
      ensures r == NotFound ==> key !in entries
      ensures !r.Fault? ==> (r.Hit? <==> key in entries)
    {
      var fault: bool := *;
      if fault {
        return Fault("cache: get failed");
      }
      r := if key in entries then Hit(entries[key]) else NotFound;
    }

    /** `Del`: removes the entry with exactly this key; a missing key is not an error. */
    method Del(key: string) returns (ok: bool)
      modifies this
      ensures entries == if ok then old(entries) - {key} else old(entries)
    {
      ok := *;
      if ok {
        entries := entries - {key};
      }
    }
  }

  class VerificationCodeRepository {
    const cache: Cache

    constructor (cache: Cache)
      ensures this.cache == cache
    {
      this.cache := cache;
    }

    /**
     * `CreateVerificationCode(code)`: a nil code is an argument error. A zero
     * creation time becomes `now`; the code is stored under its key with its
     * own expiration. The returned code is the one stored.
     */
    method CreateVerificationCode(code: Option<VerificationCode>, now: int)
      returns (stored: Option<VerificationCode>, err: Option<Errors.Error>)
      modifies cache
      ensures code.None? ==> err == Some(Errors.Failure("invalid argument 'code'")) && stored == None
      ensures code.Some? ==> stored == Some(if code.value.createdAt == 0 then code.value.(createdAt := now) else code.value)
      ensures code.Some? && err.None? ==>
                cache.entries == old(cache.entries)[CodeKey(code.value.typ, code.value.code, code.value.target) :=
                                                      Entry(stored.value, code.value.expiration)]
      ensures err.Some? ==> cache.entries == old(cache.entries) && err.value.Failure?
    {
      if code.None? {
        return None, Some(Errors.Failure("invalid argument 'code'"));
      }
      var c := code.value;
      var key := CodeKey(c.typ, c.code, c.target);
      if c.createdAt == 0 {
        c := c.(createdAt := now);
      }
      stored := Some(c);
      var ok := cache.Set(key, Entry(c, c.expiration));
      err := if ok then None else Some(Errors.Failure("cache: set failed"));
    }

    /**
     * `DeleteVerificationCode(typ, code, target)`: all three empty is an
     * argument error; otherwise each empty argument becomes "*" and the entry
     * with exactly that key is removed.
     */
    method DeleteVerificationCode(typ: string, code: string, target: string) returns (err: Option<Errors.Error>)
      modifies cache
      ensures typ == "" && code == "" && target == "" ==>
                err == Some(Errors.Failure("invalid argument 'typ&code&target'"))
      ensures err.None? ==> cache.entries == old(cache.entries) - {CodeKey(Wildcarded(typ), Wildcarded(code), Wildcarded(target))}
      ensures err.Some? ==> cache.entries == old(cache.entries) && err.value.Failure?
    {
      if typ == "" && code == "" && target == "" {
        return Some(Errors.Failure("invalid argument 'typ&code&target'"));
      }
      var t, c, g := typ, code, target;
      if t == "" {
        t := "*";
      }
      if c == "" {
        c := "*";
      }
      if g == "" {
        g := "*";
      }
      var ok := cache.Del(CodeKey(t, c, g));
      err := if ok then None else Some(Errors.Failure("cache: del failed"));
    }

    /**
     * `GetVerificationCodeByCodeTypeTarget`: every argument is required, in
     * the order type, code, target; a key the cache does not hold is "no
     * code", unless the cache call itself fails.
     */
    method GetVerificationCodeByCodeTypeTarget(typ: string, code: string, target: string)
      returns (found: Option<VerificationCode>, err: Option<Errors.Error>)
      ensures typ == "" ==> err == Some(Errors.Failure("invalid argument 'typ'"))
      ensures typ != "" && code == "" ==> err == Some(Errors.Failure("invalid argument 'code'"))
      ensures typ != "" && code != "" && target == "" ==> err == Some(Errors.Failure("invalid argument 'target'"))
      ensures err.Some? ==> found.None? && err.value.Failure?
      ensures CodeKey(typ, code, target) !in cache.entries ==> found.None?
      ensures err.None? ==> typ != "" && code != "" && target != ""
      ensures err.None? ==> (found.Some? <==> CodeKey(typ, code, target) in cache.entries)
      ensures found.Some? ==> CodeKey(typ, code, target) in cache.entries &&
                              found.value == cache.entries[CodeKey(typ, code, target)].value
    {
      if typ == "" {
        return None, Some(Errors.Failure("invalid argument 'typ'"));
      }
      if code == "" {
        return None, Some(Errors.Failure("invalid argument 'code'"));
      }
      if target == "" {
        return None, Some(Errors.Failure("invalid argument 'target'"));
      }
      var r := cache.Get(CodeKey(typ, code, target));
      match r
      case NotFound => return None, None;
      case Fault(text) => return None, Some(Errors.Failure(text));
      case Hit(entry) => return Some(entry.value), None;
    }
  }

  /**
   * A delete with three non-empty arguments removes the very key a lookup
   * with the same arguments reads, and the key a create of that code wrote.
   */
  lemma DeleteMatchesGet(typ: string, code: string, target: string)
    requires typ != "" && code != "" && target != ""
    ensures CodeKey(Wildcarded(typ), Wildcarded(code), Wildcarded(target)) == CodeKey(typ, code, target)
  {
  }
}
