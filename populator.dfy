/**
 * The content populator (`populate` in main.go): a pre-order walk that pairs
 * each node with the first scratch path whose base name equals the node's
 * base name. The channel the pairs are sent on becomes the returned sequence.
 */
module Populator {
  import opened Wrappers
  import opened Paths
  import opened Trees

  /** One message on the channel: `[]string{ver.fullName, scratches[idx]}`. */
  datatype CopyPair = CopyPair(dst: string, src: string)

  /**
   * `slices.IndexFunc(scratches, func(s) { path.Base(s) == name })`: the
   * smallest index of a scratch path with base name `name`, or -1.
   */
  function FirstMatch(scratches: seq<string>, name: string): (idx: int)
    ensures -1 <= idx < |scratches|
    decreases |scratches|
  {
    if scratches == [] then -1
    else if Base(scratches[0]) == name then 0
    else
      var rest := FirstMatch(scratches[1..], name);
      if rest < 0 then -1 else rest + 1
  }

  /** `FirstMatch` finds a path with base name `name`, and no earlier path has it. */
  lemma {:induction false} FirstMatchSpec(scratches: seq<string>, name: string)
    ensures var idx := FirstMatch(scratches, name);
      && (idx >= 0 ==> Base(scratches[idx]) == name)
      && forall k :: 0 <= k < |scratches| && (idx < 0 || k < idx) ==> Base(scratches[k]) != name
    decreases |scratches|
  {
    if scratches != [] && Base(scratches[0]) != name {
      FirstMatchSpec(scratches[1..], name);
      assert forall k :: 0 < k < |scratches| ==> scratches[k] == scratches[1..][k - 1];
    }
  }

  /** No path with base name `name`: `FirstMatch` returns -1. */
  lemma {:induction false} FirstMatchMiss(scratches: seq<string>, name: string)
    requires forall k :: 0 <= k < |scratches| ==> Base(scratches[k]) != name
    ensures FirstMatch(scratches, name) == -1
    decreases |scratches|
  {
    if scratches != [] {
      var rest := scratches[1..];
      assert forall k :: 0 <= k < |rest| ==> rest[k] == scratches[k + 1];
      FirstMatchMiss(rest, name);
    }
  }

  /** The first index whose path has base name `name` is what `FirstMatch` returns. */
  lemma {:induction false} FirstMatchIs(scratches: seq<string>, name: string, k: int)
    requires 0 <= k < |scratches| && Base(scratches[k]) == name
    requires forall j :: 0 <= j < k ==> Base(scratches[j]) != name
    ensures FirstMatch(scratches, name) == k
    decreases k
  {
    if k > 0 {
      var rest := scratches[1..];
      assert Base(scratches[0]) != name;
      assert forall j :: 0 <= j < k - 1 ==> rest[j] == scratches[j + 1];
      FirstMatchIs(rest, name, k - 1);
    }
  }

  /** What `populate` sends for a node itself: at most one pair. */
  function MatchFor(t: Tree, scratches: seq<string>): Option<CopyPair>
  {
    var idx := FirstMatch(scratches, t.baseName);
    if idx != -1 then Some(CopyPair(t.fullName, scratches[idx])) else None
  }

  /** `populate(ver, filesChan)`: the node's own pair, if any, then each child in order. */
  function Populate(t: Tree, scratches: seq<string>): seq<CopyPair>
    decreases t
  {
    (match MatchFor(t, scratches) case Some(p) => [p] case None => [])
      + PopulateAll(t.children, scratches)
  }

  function PopulateAll(ts: seq<Tree>, scratches: seq<string>): seq<CopyPair>
    decreases ts
  {
    if ts == [] then [] else Populate(ts[0], scratches) + PopulateAll(ts[1..], scratches)
  }

  /** The pairs for a list of nodes, at most one per node, in list order. */
  function Matches(ns: seq<Tree>, scratches: seq<string>): (ps: seq<CopyPair>)
    ensures |ps| <= |ns|
  {
    if ns == [] then []
    else
      var here := match MatchFor(ns[0], scratches) case Some(p) => [p] case None => [];
      here + Matches(ns[1..], scratches)
  }

  /** A pair is among the matches of a list exactly when it is the match of one of its nodes. */
  lemma {:induction false} MatchesMembers(ns: seq<Tree>, scratches: seq<string>, p: CopyPair)
    ensures p in Matches(ns, scratches) <==> exists i :: 0 <= i < |ns| && MatchFor(ns[i], scratches) == Some(p)
  {
    if ns != [] {
      var rest := ns[1..];
      MatchesMembers(rest, scratches, p);
      if p in Matches(rest, scratches) {
        var i :| 0 <= i < |rest| && MatchFor(rest[i], scratches) == Some(p);
        assert ns[i + 1] == rest[i];
      }
      if exists i :: 0 <= i < |ns| && MatchFor(ns[i], scratches) == Some(p) {
        var i :| 0 <= i < |ns| && MatchFor(ns[i], scratches) == Some(p);
        if i > 0 {
          assert rest[i - 1] == ns[i];
        }
      }
    }
  }

  lemma {:induction false} MatchesAppend(xs: seq<Tree>, ys: seq<Tree>, scratches: seq<string>)
    ensures Matches(xs + ys, scratches) == Matches(xs, scratches) + Matches(ys, scratches)
    decreases xs
  {
    if xs == [] {
      assert xs + ys == ys;
    } else {
      assert (xs + ys)[0] == xs[0] && (xs + ys)[1..] == xs[1..] + ys;
      MatchesAppend(xs[1..], ys, scratches);
    }
  }

  /** The recursive walk of `populate` sends the pairs of the nodes in pre-order. */
  lemma {:induction false} PopulateIsPreorder(t: Tree, scratches: seq<string>)
    ensures Populate(t, scratches) == Matches(Preorder(t), scratches)
    decreases t
  {
    PopulateAllIsPreorder(t.children, scratches);
    MatchesAppend([t], PreorderAll(t.children), scratches);
  }

  lemma {:induction false} PopulateAllIsPreorder(ts: seq<Tree>, scratches: seq<string>)
    ensures PopulateAll(ts, scratches) == Matches(PreorderAll(ts), scratches)
    decreases ts
  {
    if ts != [] {
      PopulateIsPreorder(ts[0], scratches);
      PopulateAllIsPreorder(ts[1..], scratches);
      MatchesAppend(Preorder(ts[0]), PreorderAll(ts[1..]), scratches);
    }
  }

  /**
   * `populate` sends at most one pair per node, and a pair `(dst, src)` is
   * sent exactly when some node has full name `dst` and `src` is the first
   * scratch path whose base name is that node's base name.
   */
  lemma PopulateSpec(t: Tree, scratches: seq<string>, p: CopyPair)
    ensures |Populate(t, scratches)| <= |Preorder(t)|
    ensures p in Populate(t, scratches) <==>
      (exists n, k :: n in Preorder(t) && 0 <= k < |scratches| &&
         p == CopyPair(n.fullName, scratches[k]) && Base(scratches[k]) == n.baseName &&
         (forall j :: 0 <= j < k ==> Base(scratches[j]) != n.baseName))
  {
    PopulateIsPreorder(t, scratches);
    if p in Populate(t, scratches) {
      SentIsFirstMatch(Preorder(t), scratches, p);
    }
    if exists n, k :: n in Preorder(t) && 0 <= k < |scratches| &&
         p == CopyPair(n.fullName, scratches[k]) && Base(scratches[k]) == n.baseName &&
         (forall j :: 0 <= j < k ==> Base(scratches[j]) != n.baseName) {
      var n, k :| n in Preorder(t) && 0 <= k < |scratches| &&
         p == CopyPair(n.fullName, scratches[k]) && Base(scratches[k]) == n.baseName &&
         (forall j :: 0 <= j < k ==> Base(scratches[j]) != n.baseName);
      FirstMatchIsSent(Preorder(t), scratches, n, k);
    }
  }

  /** Every pair among the matches of a list is a node's first match. */
  lemma SentIsFirstMatch(ns: seq<Tree>, scratches: seq<string>, p: CopyPair)
    requires p in Matches(ns, scratches)
    ensures exists n, k :: n in ns && 0 <= k < |scratches| &&
              p == CopyPair(n.fullName, scratches[k]) && Base(scratches[k]) == n.baseName &&
              (forall j :: 0 <= j < k ==> Base(scratches[j]) != n.baseName)
  {
    MatchesMembers(ns, scratches, p);
    var i :| 0 <= i < |ns| && MatchFor(ns[i], scratches) == Some(p);
    var n := ns[i];
    var k := FirstMatch(scratches, n.baseName);
    FirstMatchSpec(scratches, n.baseName);
    assert n in ns && p == CopyPair(n.fullName, scratches[k]);
  }

  /** A node's first match is among the matches of a list holding the node. */
  lemma FirstMatchIsSent(ns: seq<Tree>, scratches: seq<string>, n: Tree, k: int)
    requires n in ns && 0 <= k < |scratches| && Base(scratches[k]) == n.baseName
    requires forall j :: 0 <= j < k ==> Base(scratches[j]) != n.baseName
    ensures CopyPair(n.fullName, scratches[k]) in Matches(ns, scratches)
  {
    var i :| 0 <= i < |ns| && ns[i] == n;
    FirstMatchIs(scratches, n.baseName, k);
    MatchesMembers(ns, scratches, CopyPair(n.fullName, scratches[k]));
  }

  /** A node with an empty base name, such as the synthetic root, never matches: `path.Base` is never empty. */
  lemma UnnamedNeverMatches(t: Tree, scratches: seq<string>)
    requires t.baseName == []
    ensures MatchFor(t, scratches) == None
  {
    var idx := FirstMatch(scratches, t.baseName);
    FirstMatchSpec(scratches, t.baseName);
    if idx >= 0 {
      BaseShape(scratches[idx]);
    }
  }

  /**
   * In a well-named tree under a root with an empty base name, and with no
   * node named "/", every pair copies a scratch file into a destination with
   * the same base name.
   */
  lemma PairsShareBaseName(t: Tree, scratches: seq<string>)
    requires WellNamed(t) && t.baseName == []
    requires forall n :: n in Preorder(t) ==> n.baseName != "/"
    ensures forall p :: p in Populate(t, scratches) ==> Base(p.dst) == Base(p.src)
  {
    BaseOfFullName(t);
    forall p | p in Populate(t, scratches)
      ensures Base(p.dst) == Base(p.src)
    {
      PopulateSpec(t, scratches, p);
      var n, k :| n in Preorder(t) && 0 <= k < |scratches| &&
         p == CopyPair(n.fullName, scratches[k]) && Base(scratches[k]) == n.baseName &&
         (forall j :: 0 <= j < k ==> Base(scratches[j]) != n.baseName);
      BaseShape(scratches[k]);
      assert n.baseName != [] && n.baseName != "/";
      assert n != t;
      assert n in PreorderAll(t.children);
      assert IsElement(n.baseName);
    }
  }
}
