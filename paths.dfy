/** Slash-separated paths as the metadata engine builds them with Go's `path.Join`. */
module Paths {

  /** A single path segment: a file or directory name. It never contains a slash. */
  predicate IsName(s: string) {
    s != "" && '/' !in s
  }

  /** A clean absolute directory: "/" or "/a/b" with non-empty segments. */
  predicate IsAbsolute(s: string) {
    s == "/" || (|s| >= 2 && s[0] == '/' && s[|s| - 1] != '/'
                 && forall i | 0 <= i < |s| - 1 :: s[i] == '/' ==> s[i + 1] != '/')
  }

  /**
   * `path.Join(dir, name)` restricted to what the engine ever passes: a clean
   * directory (or the empty string) and a name that is a single segment or empty.
   */
  function Join(dir: string, name: string): (r: string)
    ensures name == "" ==> r == dir
    ensures dir == "" ==> r == name
    ensures dir != "" && name != "" ==> |r| >= |dir| + |name| && r[..|dir|] == dir && r[|r| - |name|..] == name
  {
    if name == "" then dir
    else if dir == "" then name
    else if dir == "/" then "/" + name
    else dir + "/" + name
  }

  /** Joining a name onto an absolute directory yields an absolute directory one level deeper. */
  lemma JoinAbsolute(dir: string, name: string)
    requires IsAbsolute(dir) && IsName(name)
    ensures IsAbsolute(Join(dir, name))
    ensures LastSegment(Join(dir, name)) == name
  {
    var r := Join(dir, name);
    if dir == "/" {
      assert r == "/" + name;
      forall i | 0 <= i < |r| - 1 ensures r[i] == '/' ==> r[i + 1] != '/' {
        assert r[i + 1] == name[i];
      }
    } else {
      assert r == dir + "/" + name;
      forall i | 0 <= i < |r| - 1 ensures r[i] == '/' ==> r[i + 1] != '/' {
        if i < |dir| - 1 {
        } else if i == |dir| - 1 {
        } else {
          assert r[i + 1] == name[i - |dir|];
        }
      }
    }
    LastSegmentOfJoin(dir, name);
  }

  /** The text after the last slash. */
  function LastSegment(s: string): (r: string)
    ensures '/' !in r
    ensures |r| <= |s|
    decreases |s|
  {
    if s == [] then []
    else if s[|s| - 1] == '/' then []
    else LastSegment(s[..|s| - 1]) + [s[|s| - 1]]
  }

  lemma {:induction false} LastSegmentOfJoin(dir: string, name: string)
    requires dir != "" && IsName(name)
    ensures LastSegment(Join(dir, name)) == name
  {
    var r := Join(dir, name);
    var prefix := if dir == "/" then "/" else dir + "/";
    assert r == prefix + name;
    SuffixAfterSlash(prefix, name);
  }

  lemma {:induction false} SuffixAfterSlash(prefix: string, name: string)
    requires prefix != [] && prefix[|prefix| - 1] == '/'
    requires '/' !in name
    ensures LastSegment(prefix + name) == name
    decreases |name|
  {
    if name == [] {
      assert prefix + name == prefix;
    } else {
      var s := prefix + name;
      assert s[..|s| - 1] == prefix + name[..|name| - 1];
      assert s[|s| - 1] == name[|name| - 1];
      SuffixAfterSlash(prefix, name[..|name| - 1]);
      assert name[..|name| - 1] + [name[|name| - 1]] == name;
    }
  }
}
