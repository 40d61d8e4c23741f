/**
 * The program's `node` records and the imperative `parse` that links them:
 * each node holds a pointer to its parent, the slice of its children, its
 * base name and its full name, and `parse` fills them in place.
 */
module Nodes {
  import opened Wrappers
  import opened JsonValue
  import opened Trees
  import TreeBuilder

  class Node {
    var parent: Node?
    var children: seq<Node>
    var baseName: string
    var fullName: string

    /** The value of the subtree rooted here. */
    ghost var tree: Tree
    /** This node and every node below it. */
    ghost var repr: set<Node>

    /**
     * The node invariant: `tree` is the value of the linked subtree, every
     * child points back to this node, the children's footprints lie inside
     * this node's and do not contain it, and no two children share a node.
     */
    ghost predicate Valid()
      reads this, repr
      decreases repr
    {
      && this in repr
      && tree.baseName == baseName
      && tree.fullName == fullName
      && |tree.children| == |children|
      && (forall i :: 0 <= i < |children| ==>
            && children[i] in repr
            && children[i].repr <= repr
            && this !in children[i].repr
            && children[i].parent == this
            && tree.children[i] == children[i].tree
            && children[i].Valid())
      && forall i, j :: 0 <= i < j < |children| ==> children[i].repr !! children[j].repr
    }

    /** `&node{baseName: baseName, parent: parent}`: no children and an empty full name. */
    constructor (baseName: string, parent: Node?)
      ensures Valid() && repr == {this}
      ensures this.baseName == baseName && this.parent == parent
      ensures fullName == [] && children == []
      ensures tree == Fresh(baseName)
    {
      this.parent := parent;
      this.children := [];
      this.baseName := baseName;
      this.fullName := [];
      this.tree := Fresh(baseName);
      this.repr := {this};
    }
  }

  /** The linked nodes form a tree: no node is a child of the same node twice. */
  lemma ChildrenDistinct(n: Node)
    requires n.Valid()
    ensures forall i, j :: 0 <= i < j < |n.children| ==> n.children[i] != n.children[j]
  {
    forall i, j | 0 <= i < j < |n.children|
      ensures n.children[i] != n.children[j]
    {
      assert n.children[i] in n.children[i].repr;
    }
  }

  /** The full name of a parent pointer as the tree builder sees it: `None` for nil. */
  function FullNameOf(par: Node?): Option<string>
    reads par
  {
    if par == null then None else Some(par.fullName)
  }

  /**
   * `ver.children = append(ver.children, child)` for a child that already
   * points back to `ver` and shares no node with it: the subtree at `ver` gains `child`'s subtree as its
   * last child and nothing else changes.
   */
  method AppendChild(ver: Node, child: Node)
    requires ver.Valid() && child.Valid()
    requires child.parent == ver && child.repr !! ver.repr
    modifies ver
    ensures ver.Valid() && child.Valid()
    ensures ver.children == old(ver.children) + [child]
    ensures ver.repr == old(ver.repr) + child.repr
    ensures ver.tree == old(ver.tree).(children := old(ver.tree).children + [child.tree])
    ensures ver.parent == old(ver.parent) && ver.baseName == old(ver.baseName)
    ensures ver.fullName == old(ver.fullName)
  {
    ver.children := ver.children + [child];
    ver.repr := ver.repr + child.repr;
    ver.tree := ver.tree.(children := ver.tree.children + [child.tree]);
  }

  /**
   * The step at the top of `parse`: `ver.parent = par` and, for a non-nil
   * parent, the full name derived from the parent's.
   */
  method Link(ver: Node, par: Node?)
    requires ver.Valid() && par != ver
    modifies ver
    ensures ver.Valid() && ver.repr == old(ver.repr)
    ensures ver.parent == par && ver.baseName == old(ver.baseName) && ver.children == old(ver.children)
    ensures ver.tree == TreeBuilder.Step(old(ver.tree), old(FullNameOf(par)))
  {
    ver.parent := par;
    if ver.parent != null {
      if |ver.parent.fullName| != 0 {
        ver.fullName := ver.parent.fullName + "/" + ver.baseName;
      } else {
        ver.fullName := ver.baseName;
      }
    }
    ver.tree := ver.tree.(fullName := ver.fullName);
  }

  /**
   * `parse(ver, par, data)`: link `ver` under `par`, then add the children
   * that `data` describes. On success the subtree at `ver` is what the tree
   * builder's `Parse` gives; an error is reported exactly when that function
   * fails.
   */
  method Parse(ver: Node, par: Node?, data: Json) returns (err: Option<TreeBuilder.ParseError>)
    requires ver.Valid() && par != ver
    modifies ver
    ensures ver.Valid() && fresh(ver.repr - old(ver.repr))
    ensures ver.parent == par && ver.baseName == old(ver.baseName)
    ensures err.None? <==> TreeBuilder.Parse(old(ver.tree), old(FullNameOf(par)), data).Ok?
    ensures err.None? ==> ver.tree == TreeBuilder.Parse(old(ver.tree), old(FullNameOf(par)), data).value
    decreases data, 1
  {
    Link(ver, par);
    match data {
      case Obj(ms) =>
        err := ParseMembers(ver, ms);
      case Arr(xs) =>
        err := ParseItems(ver, par, xs);
      case Str(s) =>
        AddLeaf(ver, s);
        err := None;
      case Other =>
        err := Some(TreeBuilder.UnsupportedFileDefinition);
    }
  }

  /**
   * The object branch of `parse`: one fresh child per member, parsed under
   * `ver`. On an error `ver` keeps the children of the members before the
   * first inadmissible one, and the failing child is not attached.
   */
  method ParseMembers(ver: Node, ms: seq<Member>) returns (err: Option<TreeBuilder.ParseError>)
    requires ver.Valid()
    modifies ver
    ensures ver.Valid() && fresh(ver.repr - old(ver.repr))
    ensures ver.parent == old(ver.parent) && ver.baseName == old(ver.baseName)
    ensures err.None? <==> TreeBuilder.ParseMembers(old(ver.tree), ms).Ok?
    ensures err.None? ==> ver.tree == TreeBuilder.ParseMembers(old(ver.tree), ms).value
    ensures err.Some? ==>
      exists i :: 0 <= i < |ms| && AdmissibleMembers(ms[..i]) && !Admissible(ms[i].value) &&
                  TreeBuilder.ParseMembers(old(ver.tree), ms[..i]) == Ok(ver.tree)
    decreases Obj(ms), 0
  {
    ghost var start := ver.tree;
    var i := 0;
    while i < |ms|
      invariant 0 <= i <= |ms|
      invariant ver.Valid() && fresh(ver.repr - old(ver.repr))
      invariant ver.parent == old(ver.parent) && ver.baseName == old(ver.baseName)
      invariant TreeBuilder.ParseMembers(start, ms[..i]) == Ok(ver.tree)
    {
      var child := new Node(ms[i].key, null);
      err := Parse(child, ver, ms[i].value);
      if err.Some? {
        TreeBuilder.MembersStopAt(start, ms, i, ver.tree);
        assert AdmissibleMembers(ms[..i]) && !Admissible(ms[i].value) &&
               TreeBuilder.ParseMembers(start, ms[..i]) == Ok(ver.tree);
        return;
      }
      TreeBuilder.MembersSnoc(start, ms, i, ver.tree, child.tree);
      AppendChild(ver, child);
      i := i + 1;
    }
    assert ms[..i] == ms;
    err := None;
  }

  /** The array branch of `parse`: every element parsed at `ver` with the same parent. */
  method ParseItems(ver: Node, par: Node?, xs: seq<Json>) returns (err: Option<TreeBuilder.ParseError>)
    requires ver.Valid() && par != ver && ver.parent == par
    modifies ver
    ensures ver.Valid() && fresh(ver.repr - old(ver.repr))
    ensures ver.parent == par && ver.baseName == old(ver.baseName)
    ensures err.None? <==> TreeBuilder.ParseItems(old(ver.tree), old(FullNameOf(par)), xs).Ok?
    ensures err.None? ==> ver.tree == TreeBuilder.ParseItems(old(ver.tree), old(FullNameOf(par)), xs).value
    decreases Arr(xs), 0
  {
    ghost var parName := FullNameOf(par);
    var i := 0;
    while i < |xs|
      invariant 0 <= i <= |xs|
      invariant ver.Valid() && fresh(ver.repr - old(ver.repr))
      invariant ver.parent == par && ver.baseName == old(ver.baseName)
      invariant FullNameOf(par) == parName
      invariant TreeBuilder.ParseItems(old(ver.tree), parName, xs) == TreeBuilder.ParseItems(ver.tree, parName, xs[i..])
    {
      err := Parse(ver, par, xs[i]);
      if err.Some? {
        return;
      }
      assert xs[i..][1..] == xs[i + 1..];
      i := i + 1;
    }
    err := None;
  }

  /**
   * The string branch of `parse`: a leaf named `s` whose parent pointer is
   * set directly to `ver` and whose full name is derived by its own copy of
   * the full-name rule.
   */
  method AddLeaf(ver: Node, s: string)
    requires ver.Valid()
    modifies ver
    ensures ver.Valid() && fresh(ver.repr - old(ver.repr))
    ensures ver.parent == old(ver.parent) && ver.baseName == old(ver.baseName)
    ensures ver.tree == old(ver.tree).(children := old(ver.tree).children + [TreeBuilder.Leaf(s, old(ver.fullName))])
  {
    var leaf := new Node(s, ver);
    if leaf.parent != null {
      if |leaf.parent.fullName| != 0 {
        leaf.fullName := leaf.parent.fullName + "/" + leaf.baseName;
      } else {
        leaf.fullName := leaf.baseName;
      }
    }
    leaf.tree := leaf.tree.(fullName := leaf.fullName);
    AppendChild(ver, leaf);
  }

  /**
   * The value of the subtree at `n`, read from the node fields alone: the
   * tree that `generate` and `populate` walk.
   */
  function Snapshot(n: Node): (t: Tree)
    requires n.Valid()
    reads n.repr
    ensures t == n.tree
    decreases n.repr, 1
  {
    Tree(n.baseName, n.fullName, SnapshotChildren(n, 0))
  }

  function SnapshotChildren(n: Node, i: nat): (ts: seq<Tree>)
    requires n.Valid() && i <= |n.children|
    reads n.repr
    ensures ts == n.tree.children[i..]
    decreases n.repr, 0, |n.children| - i
  {
    if i == |n.children| then []
    else [Snapshot(n.children[i])] + SnapshotChildren(n, i + 1)
  }
}
