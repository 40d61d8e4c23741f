/**
 * Slash-separated path names: the rule that derives a node's full name from
 * its parent's, and Go's `path.Base`, which the program uses to compare a
 * scratch path with a node's base name.
 */
module Paths {

  /**
   * The full name of a node whose parent has full name `parentFullName`:
   * the two joined by a slash, or the base name alone under a parent whose
   * full name is empty (the root).
   */
  function JoinName(parentFullName: string, baseName: string): string
  {
    if |parentFullName| != 0 then parentFullName + "/" + baseName else baseName
  }

  /** `p` with every trailing slash removed. */
  function TrimTrailingSlashes(p: string): (r: string)
    ensures |r| <= |p|
  {
    if p != [] && p[|p| - 1] == '/' then TrimTrailingSlashes(p[..|p| - 1]) else p
  }

  /** Trimming keeps a prefix that does not end in a slash, and drops only slashes. */
  lemma {:induction false} TrimTrailingSlashesSpec(p: string)
    ensures var r := TrimTrailingSlashes(p);
      && r == p[..|r|]
      && (r == [] || r[|r| - 1] != '/')
      && forall k :: |r| <= k < |p| ==> p[k] == '/'
    decreases |p|
  {
    if p != [] && p[|p| - 1] == '/' {
      TrimTrailingSlashesSpec(p[..|p| - 1]);
    }
  }

  /** The index of the last slash in `p`, or -1 when there is none. */
  function LastSlash(p: string): (i: int)
    ensures -1 <= i < |p|
  {
    if p == [] then -1
    else if p[|p| - 1] == '/' then |p| - 1
    else LastSlash(p[..|p| - 1])
  }

  /** `LastSlash` finds a slash, and no slash follows it. */
  lemma {:induction false} LastSlashSpec(p: string)
    ensures var i := LastSlash(p);
      && (i >= 0 ==> p[i] == '/')
      && forall k :: i < k < |p| ==> p[k] != '/'
    decreases |p|
  {
    if p != [] && p[|p| - 1] != '/' {
      LastSlashSpec(p[..|p| - 1]);
    }
  }

  /**
   * Go's `path.Base`: the last element of a slash-separated path after
   * trailing slashes are removed; "." for the empty path and "/" for a path
   * made only of slashes.
   */
  function Base(p: string): string
  {
    if p == [] then "."
    else
      var trimmed := TrimTrailingSlashes(p);
      var last := trimmed[LastSlash(trimmed) + 1..];
      if last == [] then "/" else last
  }

  /** `path.Base` never returns the empty string, and returns no slash except the path "/". */
  lemma {:induction false} BaseShape(p: string)
    ensures Base(p) != []
    ensures Base(p) == "/" || '/' !in Base(p)
  {
    if p != [] {
      var trimmed := TrimTrailingSlashes(p);
      LastSlashSpec(trimmed);
      NoSlashAfter(trimmed, LastSlash(trimmed));
    }
  }

  /** The part of `s` after index `i` holds no slash when none of its characters is one. */
  lemma NoSlashAfter(s: string, i: int)
    requires -1 <= i < |s|
    requires forall k :: i < k < |s| ==> s[k] != '/'
    ensures '/' !in s[i + 1..]
  {
    var last := s[i + 1..];
    assert forall k :: 0 <= k < |last| ==> last[k] == s[i + 1 + k];
  }

  /** True when `s` is a single path element: non-empty and slash-free. */
  predicate IsElement(s: string)
  {
    s != [] && '/' !in s
  }

  /** A single element is its own base name. */
  lemma BaseOfElement(name: string)
    requires IsElement(name)
    ensures Base(name) == name
  {
    assert TrimTrailingSlashes(name) == name;
    LastSlashSpec(name);
    assert LastSlash(name) == -1;
  }

  /** Joining a directory and an element gives back the element as base name. */
  lemma BaseOfJoin(dir: string, name: string)
    requires IsElement(name)
    ensures Base(dir + "/" + name) == name
  {
    var p := dir + "/" + name;
    assert p[|p| - 1] == name[|name| - 1];
    assert p[|p| - 1] != '/' by { assert name[|name| - 1] in name; }
    assert TrimTrailingSlashes(p) == p;
    var i := LastSlash(p);
    LastSlashSpec(p);
    assert p[|dir|] == '/';
    assert i == |dir|;
    assert p[i + 1..] == name;
  }

  /** The full name the fullName rule gives a node ends in its base name. */
  lemma BaseOfJoinName(parentFullName: string, baseName: string)
    requires IsElement(baseName)
    ensures Base(JoinName(parentFullName, baseName)) == baseName
  {
    if |parentFullName| != 0 {
      BaseOfJoin(parentFullName, baseName);
    } else {
      BaseOfElement(baseName);
    }
  }

  /** `path.Base` returns "/" exactly for the non-empty paths made only of slashes. */
  lemma BaseIsSlashIff(p: string)
    ensures Base(p) == "/" <==> (p != [] && forall k :: 0 <= k < |p| ==> p[k] == '/')
  {
    if p != [] {
      var trimmed := TrimTrailingSlashes(p);
      TrimTrailingSlashesSpec(p);
      LastSlashSpec(trimmed);
      if trimmed == [] {
        assert forall k :: 0 <= k < |p| ==> p[k] == '/';
      } else {
        assert trimmed[|trimmed| - 1] != '/';
        var last := trimmed[LastSlash(trimmed) + 1..];
        assert last != [] && last[|last| - 1] == trimmed[|trimmed| - 1];
        assert last != "/";
        assert p[|trimmed| - 1] != '/';
      }
    }
  }

  /** `path.Base` is idempotent. */
  lemma BaseIdempotent(p: string)
    ensures Base(Base(p)) == Base(p)
  {
    var b := Base(p);
    BaseShape(p);
    if b == "/" {
      assert TrimTrailingSlashes(b) == [];
    } else {
      BaseOfElement(b);
    }
  }
}
