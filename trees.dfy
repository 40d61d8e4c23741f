/**
 * The value of a tree of named nodes: what the tree builder produces and what
 * the materializer and the populator walk. A node is a directory when it has
 * children and a file when it has none.
 */
module Trees {
  import opened Paths

  /** A node with its own name segment, its full path and its children. */
  datatype Tree = Tree(baseName: string, fullName: string, children: seq<Tree>)

  /** A fresh node as `&node{baseName: name}` creates it: no full name, no children. */
  function Fresh(name: string): (t: Tree)
    ensures t.baseName == name && t.fullName == [] && t.children == []
  {
    Tree(name, [], [])
  }

  /** Every node of `t`, parent before children, children in order. */
  function Preorder(t: Tree): (ns: seq<Tree>)
    ensures |ns| >= 1 && ns[0] == t
    decreases t
  {
    [t] + PreorderAll(t.children)
  }

  function PreorderAll(ts: seq<Tree>): seq<Tree>
    decreases ts
  {
    if ts == [] then [] else Preorder(ts[0]) + PreorderAll(ts[1..])
  }

  /**
   * The full-name invariant: below `t`, every child's full name is its
   * parent's full name joined with its own base name.
   */
  predicate WellNamed(t: Tree)
    decreases t
  {
    forall i :: 0 <= i < |t.children| ==>
      t.children[i].fullName == JoinName(t.fullName, t.children[i].baseName) &&
      WellNamed(t.children[i])
  }

  /** The base names of a sequence of nodes. */
  function BaseNames(ts: seq<Tree>): (ns: seq<string>)
    ensures |ns| == |ts|
    ensures forall i :: 0 <= i < |ts| ==> ns[i] == ts[i].baseName
  {
    if ts == [] then [] else [ts[0].baseName] + BaseNames(ts[1..])
  }

  lemma BaseNamesAppend(xs: seq<Tree>, ys: seq<Tree>)
    ensures BaseNames(xs + ys) == BaseNames(xs) + BaseNames(ys)
  {
  }

  /** Pre-order listing distributes over concatenation of sibling sequences. */
  lemma {:induction false} PreorderAllAppend(xs: seq<Tree>, ys: seq<Tree>)
    ensures PreorderAll(xs + ys) == PreorderAll(xs) + PreorderAll(ys)
    decreases xs
  {
    if xs == [] {
      assert xs + ys == ys;
    } else {
      assert (xs + ys)[0] == xs[0] && (xs + ys)[1..] == xs[1..] + ys;
      PreorderAllAppend(xs[1..], ys);
    }
  }

  /** Every node listed below the children of `t` lies in the subtree of one of them. */
  lemma {:induction false} PreorderAllMember(ts: seq<Tree>, n: Tree)
    requires n in PreorderAll(ts)
    ensures exists i :: 0 <= i < |ts| && n in Preorder(ts[i])
    decreases ts
  {
    if n !in Preorder(ts[0]) {
      PreorderAllMember(ts[1..], n);
      var i :| 0 <= i < |ts[1..]| && n in Preorder(ts[1..][i]);
      assert n in Preorder(ts[i + 1]);
    }
  }

  /**
   * In a well-named tree whose root has a non-empty full name, every node
   * below the root has a full name inside the root's directory.
   */
  lemma {:induction false} DescendantsInside(t: Tree)
    requires WellNamed(t) && t.fullName != []
    ensures forall n :: n in PreorderAll(t.children) ==> t.fullName + "/" <= n.fullName
    decreases t
  {
    forall n | n in PreorderAll(t.children)
      ensures t.fullName + "/" <= n.fullName
    {
      PreorderAllMember(t.children, n);
      var i :| 0 <= i < |t.children| && n in Preorder(t.children[i]);
      var c := t.children[i];
      assert c.fullName == t.fullName + "/" + c.baseName;
      assert t.fullName + "/" <= c.fullName;
      if n != c {
        DescendantsInside(c);
        assert c.fullName + "/" <= n.fullName;
        assert (t.fullName + "/") <= c.fullName + "/";
      }
    }
  }

  /**
   * In a well-named tree, a node below the root whose base name is a single
   * path element has that element as the base of its full name.
   */
  lemma {:induction false} BaseOfFullName(t: Tree)
    requires WellNamed(t)
    ensures forall n :: n in PreorderAll(t.children) && IsElement(n.baseName) ==> Base(n.fullName) == n.baseName
    decreases t
  {
    forall n | n in PreorderAll(t.children) && IsElement(n.baseName)
      ensures Base(n.fullName) == n.baseName
    {
      PreorderAllMember(t.children, n);
      var i :| 0 <= i < |t.children| && n in Preorder(t.children[i]);
      var c := t.children[i];
      if n == c {
        BaseOfJoinName(t.fullName, c.baseName);
      } else {
        BaseOfFullName(c);
      }
    }
  }
}
