/**
 * Small structure documents run through the builder, the materializer and
 * the populator. The names are parameters, so each lemma covers every
 * choice of names; `{"src": ["main.go", "util.go"], "README.md": []}` is the
 * document with `dir = "src"`, `first = "main.go"`, `second = "util.go"` and
 * `top = "README.md"`.
 */
module Scenarios {
  import opened Wrappers
  import opened JsonValue
  import opened Paths
  import opened Trees
  import TreeBuilder
  import opened Materializer
  import opened Populator

  /** `{dir: [first, second], top: []}` */
  function Document(dir: string, first: string, second: string, top: string): seq<Member>
  {
    [Member(dir, Arr([Str(first), Str(second)])), Member(top, Arr([]))]
  }

  /** The directory `dir` holding the two files. */
  function DirTree(dir: string, first: string, second: string): Tree
  {
    Tree(dir, dir, [Tree(first, dir + "/" + first, []), Tree(second, dir + "/" + second, [])])
  }

  /** The tree the document describes, under the unnamed root. */
  function DocumentTree(dir: string, first: string, second: string, top: string): Tree
  {
    Tree("", "", [DirTree(dir, first, second), Tree(top, top, [])])
  }

  /** The array under `dir` adds the two files, in order, below `dir`. */
  lemma DirBuild(dir: string, first: string, second: string)
    requires dir != []
    ensures TreeBuilder.Parse(Fresh(dir), Some(""), Arr([Str(first), Str(second)]))
      == Ok(DirTree(dir, first, second))
  {
    var xs := [Str(first), Str(second)];
    var f1 := Tree(first, dir + "/" + first, []);
    var f2 := Tree(second, dir + "/" + second, []);
    var s0 := Tree(dir, dir, []);
    var s1 := s0.(children := [f1]);
    var s2 := s1.(children := [f1, f2]);
    assert TreeBuilder.Step(Fresh(dir), Some("")) == s0;
    assert TreeBuilder.Parse(s0, Some(""), Str(first)) == Ok(s1) by {
      assert TreeBuilder.Step(s0, Some("")) == s0;
      assert s0.children + [f1] == [f1];
    }
    assert TreeBuilder.Parse(s1, Some(""), Str(second)) == Ok(s2) by {
      assert TreeBuilder.Step(s1, Some("")) == s1;
      assert s1.children + [f2] == [f1, f2];
    }
    assert TreeBuilder.ParseItems(s1, Some(""), xs[1..]) == Ok(s2) by {
      assert xs[1..][0] == Str(second) && xs[1..][1..] == [];
    }
  }

  /**
   * The document builds the directory `dir` with its two files and a
   * top-level `top` without children: an empty array under a key gives a
   * node with no children.
   */
  lemma DocumentBuild(dir: string, first: string, second: string, top: string)
    requires dir != []
    ensures TreeBuilder.Parse(Fresh([]), None, Obj(Document(dir, first, second, top)))
      == Ok(DocumentTree(dir, first, second, top))
  {
    var ms := Document(dir, first, second, top);
    var t := DocumentTree(dir, first, second, top);
    var r0 := Fresh([]);
    var r1 := r0.(children := [t.children[0]]);
    assert TreeBuilder.ParseMembers(r1, ms[1..]) == Ok(t) by {
      assert TreeBuilder.Parse(Fresh(top), Some(""), Arr([])) == Ok(t.children[1]);
      assert ms[1..][0] == Member(top, Arr([])) && ms[1..][1..] == [];
      assert r1.children + [t.children[1]] == t.children;
    }
    assert TreeBuilder.ParseMembers(r0, ms) == Ok(t) by {
      DirBuild(dir, first, second);
      assert r0.children + [t.children[0]] == r1.children;
    }
  }

  /** The nodes of the document tree in pre-order. */
  function DocumentNodes(dir: string, first: string, second: string, top: string): seq<Tree>
  {
    var t := DocumentTree(dir, first, second, top);
    [t, t.children[0], t.children[0].children[0], t.children[0].children[1], t.children[1]]
  }

  lemma DocumentPreorder(dir: string, first: string, second: string, top: string)
    ensures Preorder(DocumentTree(dir, first, second, top)) == DocumentNodes(dir, first, second, top)
  {
    var t := DocumentTree(dir, first, second, top);
    var d := t.children[0];
    assert PreorderAll(d.children) == d.children by {
      assert Preorder(d.children[0]) == [d.children[0]];
      assert Preorder(d.children[1]) == [d.children[1]];
      assert d.children[1..][1..] == [];
    }
    assert Preorder(t.children[1]) == [t.children[1]];
    assert PreorderAll(t.children) == [d] + d.children + [t.children[1]] by {
      assert t.children[1..][1..] == [];
    }
  }

  /**
   * `generate` makes the directory `dir` before its two files, and makes
   * `top`, which has no children, an empty file rather than a directory.
   */
  lemma DocumentPlan(dir: string, first: string, second: string, top: string)
    requires dir != [] && first != [] && second != [] && top != []
    ensures Plan(DocumentTree(dir, first, second, top)) ==
      [Mkdir(dir, DirPerm), CreateFile(dir + "/" + first), CreateFile(dir + "/" + second), CreateFile(top)]
  {
    var ns := DocumentNodes(dir, first, second, top);
    var last := [CreateFile(dir + "/" + second), CreateFile(top)];
    DocumentPreorder(dir, first, second, top);
    assert Actions(ns[3..]) == last by {
      assert ns[3..][1..] == [ns[4]];
      assert ns[3..][1..][1..] == [];
    }
    assert Actions(ns[2..]) == [CreateFile(dir + "/" + first)] + last by {
      assert ns[2..][1..] == ns[3..];
    }
    assert Actions(ns[1..]) == [Mkdir(dir, DirPerm)] + ([CreateFile(dir + "/" + first)] + last) by {
      assert ns[1..][1..] == ns[2..];
    }
    assert Actions(ns) == Actions(ns[1..]) by {
      assert ActionFor(ns[0]).None?;
    }
  }

  /** A scratch directory `root` holding `dir/first` and the structure document, as the walk lists it. */
  function Scratches(root: string, dir: string, first: string): seq<string>
  {
    [root, root + "/" + dir, root + "/" + dir + "/" + first, root + "/" + "york.json"]
  }

  /**
   * Names for which the scratches and the tree line up as in the example:
   * single path elements, the scratch root named like no node, and the
   * second file and the top-level node named like no scratch entry.
   */
  predicate Separate(root: string, dir: string, first: string, second: string, top: string)
  {
    && IsElement(root) && IsElement(dir) && IsElement(first)
    && root != dir && root != first && dir != first
    && second != root && second != dir && second != first && second != "york.json"
    && top != root && top != dir && top != first && top != "york.json"
  }

  /** The base names of the scratches: each entry's own last element. */
  lemma ScratchBases(root: string, dir: string, first: string)
    requires IsElement(root) && IsElement(dir) && IsElement(first)
    ensures Base(Scratches(root, dir, first)[0]) == root
    ensures Base(Scratches(root, dir, first)[1]) == dir
    ensures Base(Scratches(root, dir, first)[2]) == first
    ensures Base(Scratches(root, dir, first)[3]) == "york.json"
  {
    BaseOfElement(root);
    BaseOfJoin(root, dir);
    BaseOfJoin(root + "/" + dir, first);
    BaseOfJoin(root, "york.json");
  }

  /** The directory's name first matches the scratch directory of that name. */
  lemma DirHit(root: string, dir: string, first: string)
    requires IsElement(root) && IsElement(dir) && IsElement(first) && root != dir
    ensures FirstMatch(Scratches(root, dir, first), dir) == 1
  {
    var sc := Scratches(root, dir, first);
    assert Base(sc[1]) == dir && forall j :: 0 <= j < 1 ==> Base(sc[j]) != dir by {
      ScratchBases(root, dir, first);
    }
    FirstMatchIs(sc, dir, 1);
  }

  /** The first file's name first matches its scratch file. */
  lemma FileHit(root: string, dir: string, first: string)
    requires IsElement(root) && IsElement(dir) && IsElement(first) && root != first && dir != first
    ensures FirstMatch(Scratches(root, dir, first), first) == 2
  {
    var sc := Scratches(root, dir, first);
    assert Base(sc[2]) == first && forall j :: 0 <= j < 2 ==> Base(sc[j]) != first by {
      ScratchBases(root, dir, first);
    }
    FirstMatchIs(sc, first, 2);
  }

  /** A name carried by no scratch entry matches nothing. */
  lemma ScratchMiss(root: string, dir: string, first: string, name: string)
    requires IsElement(root) && IsElement(dir) && IsElement(first)
    requires name != root && name != dir && name != first && name != "york.json"
    ensures FirstMatch(Scratches(root, dir, first), name) == -1
  {
    var sc := Scratches(root, dir, first);
    assert forall k :: 0 <= k < |sc| ==> Base(sc[k]) != name by {
      ScratchBases(root, dir, first);
    }
    FirstMatchMiss(sc, name);
  }

  /**
   * Matching is by name only: the directory node `dir` is paired with the
   * scratch directory of the same name, `dir/first` with its scratch file,
   * and the second file, `top` and the unnamed root match nothing.
   */
  lemma DocumentCopies(root: string, dir: string, first: string, second: string, top: string)
    requires Separate(root, dir, first, second, top)
    ensures Populate(DocumentTree(dir, first, second, top), Scratches(root, dir, first)) ==
      [CopyPair(dir, root + "/" + dir), CopyPair(dir + "/" + first, root + "/" + dir + "/" + first)]
  {
    var sc := Scratches(root, dir, first);
    var ns := DocumentNodes(dir, first, second, top);
    var p1 := CopyPair(dir, root + "/" + dir);
    var p2 := CopyPair(dir + "/" + first, root + "/" + dir + "/" + first);
    PopulateIsPreorder(DocumentTree(dir, first, second, top), sc);
    DocumentPreorder(dir, first, second, top);
    DirHit(root, dir, first);
    FileHit(root, dir, first);
    ScratchMiss(root, dir, first, second);
    ScratchMiss(root, dir, first, top);
    UnnamedNeverMatches(ns[0], sc);
    assert Matches(ns[3..], sc) == [] by {
      assert ns[3..][1..] == [ns[4]];
      assert ns[3..][1..][1..] == [];
    }
    assert Matches(ns[2..], sc) == [p2] by {
      assert ns[2..][1..] == ns[3..];
    }
    assert Matches(ns[1..], sc) == [p1, p2] by {
      assert ns[1..][1..] == ns[2..];
    }
  }

  /**
   * A string under a key is a file inside that key's node, so `{key: s}`
   * makes `key` a directory holding `key/s`; a value of any other kind, such
   * as a number, is rejected.
   */
  lemma StringUnderKey(key: string, s: string)
    requires key != []
    ensures TreeBuilder.Parse(Fresh([]), None, Obj([Member(key, Str(s))])) ==
      Ok(Tree("", "", [Tree(key, key, [Tree(s, key + "/" + s, [])])]))
    ensures TreeBuilder.Parse(Fresh([]), None, Obj([Member(key, Other)])) ==
      Err(TreeBuilder.UnsupportedFileDefinition)
  {
    var ms := [Member(key, Str(s))];
    var leaf := Tree(s, key + "/" + s, []);
    var node := Tree(key, key, [leaf]);
    assert TreeBuilder.Parse(Fresh(key), Some(""), Str(s)) == Ok(node) by {
      assert TreeBuilder.Step(Fresh(key), Some("")) == Tree(key, key, []);
      assert TreeBuilder.Leaf(s, key) == leaf;
      assert [] + [leaf] == [leaf];
    }
    assert TreeBuilder.ParseMembers(Fresh([]), ms) == Ok(Tree("", "", [node])) by {
      assert Fresh([]).fullName == "";
      assert ms[0] == Member(key, Str(s)) && ms[1..] == [];
      assert Fresh([]).children + [node] == [node];
    }
    var bad := [Member(key, Other)];
    assert TreeBuilder.ParseMembers(Fresh([]), bad) == Err(TreeBuilder.UnsupportedFileDefinition) by {
      assert bad[0].value == Other;
    }
    assert TreeBuilder.Step(Fresh([]), None) == Fresh([]);
  }

  /**
   * `{dir: [{sub: first}, {sub: second}]}`: the same key in two objects of
   * one array, so `dir` gets two children with the same name.
   */
  function RepeatedKeyDocument(dir: string, sub: string, first: string, second: string): seq<Member>
  {
    [Member(dir, Arr([Obj([Member(sub, Str(first))]), Obj([Member(sub, Str(second))])]))]
  }

  /** A directory `name` at `path` holding the one file `file`. */
  function OneFileTree(name: string, path: string, file: string): Tree
  {
    Tree(name, path, [Tree(file, path + "/" + file, [])])
  }

  /** The tree of that document: two nodes with full name `dir/sub`, one per object. */
  function RepeatedKeyTree(dir: string, sub: string, first: string, second: string): Tree
  {
    var d := dir + "/" + sub;
    Tree("", "", [Tree(dir, dir, [OneFileTree(sub, d, first), OneFileTree(sub, d, second)])])
  }

  /** An object `{sub: file}` parsed at a named node adds the directory `sub` holding `file`. */
  lemma OneFileBuild(v: Tree, sub: string, file: string)
    requires v.fullName != []
    ensures TreeBuilder.ParseMembers(v, [Member(sub, Str(file))]) ==
      Ok(v.(children := v.children + [OneFileTree(sub, v.fullName + "/" + sub, file)]))
  {
    var ms := [Member(sub, Str(file))];
    var path := v.fullName + "/" + sub;
    assert TreeBuilder.Parse(Fresh(sub), Some(v.fullName), Str(file)) == Ok(OneFileTree(sub, path, file)) by {
      assert TreeBuilder.Step(Fresh(sub), Some(v.fullName)) == Tree(sub, path, []);
      assert [] + [Tree(file, path + "/" + file, [])] == [Tree(file, path + "/" + file, [])];
    }
    assert ms[1..] == [];
  }

  /** The document builds `dir` with two children named `sub`, both with full name `dir/sub`. */
  lemma RepeatedKeyBuild(dir: string, sub: string, first: string, second: string)
    requires dir != []
    ensures TreeBuilder.Parse(Fresh([]), None, Obj(RepeatedKeyDocument(dir, sub, first, second)))
      == Ok(RepeatedKeyTree(dir, sub, first, second))
  {
    var d := dir + "/" + sub;
    var x1 := OneFileTree(sub, d, first);
    var x2 := OneFileTree(sub, d, second);
    var a0 := Tree(dir, dir, []);
    var a1 := a0.(children := [x1]);
    var a2 := a0.(children := [x1, x2]);
    var xs := [Obj([Member(sub, Str(first))]), Obj([Member(sub, Str(second))])];
    assert TreeBuilder.Parse(a0, Some(""), xs[0]) == Ok(a1) by {
      assert xs[0] == Obj([Member(sub, Str(first))]);
      assert TreeBuilder.Step(a0, Some("")) == a0;
      OneFileBuild(a0, sub, first);
      assert a0.children + [x1] == a1.children;
    }
    assert TreeBuilder.Parse(a1, Some(""), xs[1]) == Ok(a2) by {
      assert xs[1] == Obj([Member(sub, Str(second))]);
      assert TreeBuilder.Step(a1, Some("")) == a1;
      OneFileBuild(a1, sub, second);
      assert a1.children + [x2] == a2.children;
    }
    assert TreeBuilder.ParseItems(a1, Some(""), xs[1..]) == Ok(a2) by {
      assert xs[1..][0] == xs[1] && xs[1..][1..] == [];
    }
    assert TreeBuilder.Parse(Fresh(dir), Some(""), Arr(xs)) == Ok(a2) by {
      assert TreeBuilder.Step(Fresh(dir), Some("")) == a0;
    }
    var ms := RepeatedKeyDocument(dir, sub, first, second);
    assert TreeBuilder.ParseMembers(Fresh([]), ms) == Ok(RepeatedKeyTree(dir, sub, first, second)) by {
      assert ms[1..] == [];
      assert Fresh([]).children + [a2] == [a2];
    }
  }

  /** A directory holding one file is made first, then its file is created. */
  lemma OneFilePlan(name: string, path: string, file: string)
    requires name != [] && file != []
    ensures Plan(OneFileTree(name, path, file)) == [Mkdir(path, DirPerm), CreateFile(path + "/" + file)]
  {
    var t := OneFileTree(name, path, file);
    assert PreorderAll(t.children) == [t.children[0]] by {
      assert Preorder(t.children[0]) == [t.children[0]];
      assert t.children[1..] == [];
    }
    assert Actions(Preorder(t)[1..]) == [CreateFile(path + "/" + file)] by {
      assert Preorder(t)[1..] == [t.children[0]];
    }
  }

  /** `generate` would make `dir/sub` twice: before the first file and again before the second. */
  lemma RepeatedKeyPlan(dir: string, sub: string, first: string, second: string)
    requires dir != [] && sub != [] && first != [] && second != []
    ensures Plan(RepeatedKeyTree(dir, sub, first, second)) ==
      [Mkdir(dir, DirPerm), Mkdir(dir + "/" + sub, DirPerm), CreateFile(dir + "/" + sub + "/" + first),
       Mkdir(dir + "/" + sub, DirPerm), CreateFile(dir + "/" + sub + "/" + second)]
  {
    var t := RepeatedKeyTree(dir, sub, first, second);
    var a := t.children[0];
    var x1 := a.children[0];
    var x2 := a.children[1];
    OneFilePlan(sub, dir + "/" + sub, first);
    OneFilePlan(sub, dir + "/" + sub, second);
    assert PreorderAll(a.children) == Preorder(x1) + Preorder(x2) by {
      assert a.children[1..][0] == x2 && a.children[1..][1..] == [];
      assert PreorderAll(a.children[1..]) == Preorder(x2) + PreorderAll([]);
      assert Preorder(x2) + [] == Preorder(x2);
    }
    ActionsAppend(Preorder(x1), Preorder(x2));
    ActionsAppend([a], PreorderAll(a.children));
    assert PreorderAll(t.children) == Preorder(a) by {
      assert t.children[1..] == [];
    }
    ActionsAppend([t], PreorderAll(t.children));
  }

  /**
   * On a filesystem where `os.Mkdir` fails on a path the run already
   * created, generating that tree fails: the second `dir/sub` is refused.
   */
  lemma RepeatedKeyFails(dir: string, sub: string, first: string, second: string,
                         succeeds: (seq<Action>, Action) -> bool)
    requires dir != [] && sub != [] && first != [] && second != []
    requires MkdirRefusesMade(succeeds)
    ensures Generate(RepeatedKeyTree(dir, sub, first, second), [], succeeds).failed.Some?
  {
    var t := RepeatedKeyTree(dir, sub, first, second);
    GenerateRunsPlan(t, [], succeeds);
    RepeatedKeyPlan(dir, sub, first, second);
    RepeatedMkdirFails(Plan(t), [], succeeds, 1, 3);
  }
}
