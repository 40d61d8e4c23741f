/**
 * The tree builder (`parse` in main.go) as a function on tree values: what
 * parsing a JSON value at a node does to that node. The imperative version
 * over linked node objects, `Nodes.Parse`, is proved to compute exactly this.
 */
module TreeBuilder {
  import opened Wrappers
  import opened JsonValue
  import opened Paths
  import opened Trees

  /** The one error `parse` reports: a value that is not an object, an array or a string. */
  datatype ParseError = UnsupportedFileDefinition

  /**
   * The step at the top of `parse`: link the node to its parent and, when
   * the parent is not nil, derive the node's full name from the parent's.
   * `par` is the parent's full name, `None` for a nil parent.
   */
  function Step(v: Tree, par: Option<string>): Tree
  {
    match par
    case None => v
    case Some(parentFullName) =>
      v.(fullName := if |parentFullName| != 0 then parentFullName + "/" + v.baseName else v.baseName)
  }

  /** The leaf that the string branch of `parse` creates under a node with full name `verFullName`. */
  function Leaf(s: string, verFullName: string): Tree
  {
    Tree(s, if |verFullName| != 0 then verFullName + "/" + s else s, [])
  }

  /**
   * Parsing `data` at the node `v` whose parent has full name `par`: the
   * node after the step, with the children the value adds appended, or the
   * error of the first unsupported value met.
   */
  function Parse(v: Tree, par: Option<string>, data: Json): Result<Tree, ParseError>
    decreases data
  {
    var ver := Step(v, par);
    match data
    case Obj(ms) => ParseMembers(ver, ms)
    case Arr(xs) => ParseItems(ver, par, xs)
    case Str(s) => Ok(ver.(children := ver.children + [Leaf(s, ver.fullName)]))
    case Other => Err(UnsupportedFileDefinition)
  }

  /** The object branch: one new child per member, each parsed with `ver` as its parent. */
  function ParseMembers(ver: Tree, ms: seq<Member>): Result<Tree, ParseError>
    decreases ms
  {
    if ms == [] then Ok(ver)
    else
      match Parse(Fresh(ms[0].key), Some(ver.fullName), ms[0].value)
      case Err(e) => Err(e)
      case Ok(child) => ParseMembers(ver.(children := ver.children + [child]), ms[1..])
  }

  /** The array branch: every element parsed at the same node with the same parent. */
  function ParseItems(ver: Tree, par: Option<string>, xs: seq<Json>): Result<Tree, ParseError>
    decreases xs
  {
    if xs == [] then Ok(ver)
    else
      match Parse(ver, par, xs[0])
      case Err(e) => Err(e)
      case Ok(next) => ParseItems(next, par, xs[1..])
  }

  // ---------------------------------------------------------------------
  // The two copies of the full-name rule

  /**
   * Both copies of the full-name rule follow `JoinName`; a leaf is exactly
   * the fresh node the generic step would link under the same parent; and
   * the step is idempotent, so re-running it on the same node with the same
   * parent (the array branch) changes nothing.
   */
  lemma BranchesAgree(v: Tree, parentFullName: string, s: string)
    ensures Step(v, Some(parentFullName)).fullName == JoinName(parentFullName, v.baseName)
    ensures Leaf(s, parentFullName).fullName == JoinName(parentFullName, s)
    ensures Leaf(s, parentFullName) == Step(Fresh(s), Some(parentFullName))
    ensures Step(Step(v, Some(parentFullName)), Some(parentFullName)) == Step(v, Some(parentFullName))
  {
  }

  /** The step never touches the base name or the children, and a nil parent changes nothing. */
  lemma StepKeeps(v: Tree, par: Option<string>)
    ensures Step(v, par).baseName == v.baseName && Step(v, par).children == v.children
    ensures par.None? ==> Step(v, par) == v
    ensures Step(Step(v, par), par) == Step(v, par)
  {
  }

  /** A node with the base and full name of a fixed point of the step is a fixed point too. */
  lemma StepFixed(a: Tree, b: Tree, par: Option<string>)
    requires Step(a, par) == a
    requires b.baseName == a.baseName && b.fullName == a.fullName
    ensures Step(b, par) == b
  {
  }

  /** Parsing at a node that has already been stepped under the same parent is parsing at the node. */
  lemma ParseAfterStep(v: Tree, par: Option<string>, data: Json)
    ensures Parse(Step(v, par), par, data) == Parse(v, par, data)
  {
    StepKeeps(v, par);
  }

  // ---------------------------------------------------------------------
  // When parsing fails

  /**
   * `parse` fails exactly when some value reachable through objects and
   * arrays is neither an object, an array nor a string.
   */
  lemma {:induction false} ParseFailsIff(v: Tree, par: Option<string>, data: Json)
    ensures Parse(v, par, data).Err? <==> !Admissible(data)
    decreases data
  {
    match data
    case Obj(ms) => MembersFailIff(Step(v, par), ms);
    case Arr(xs) => ItemsFailIff(Step(v, par), par, xs);
    case Str(_) =>
    case Other =>
  }

  lemma {:induction false} MembersFailIff(ver: Tree, ms: seq<Member>)
    ensures ParseMembers(ver, ms).Err? <==> !AdmissibleMembers(ms)
    decreases ms
  {
    if ms != [] {
      ParseFailsIff(Fresh(ms[0].key), Some(ver.fullName), ms[0].value);
      match Parse(Fresh(ms[0].key), Some(ver.fullName), ms[0].value)
      case Err(_) =>
      case Ok(child) => MembersFailIff(ver.(children := ver.children + [child]), ms[1..]);
    }
  }

  lemma {:induction false} ItemsFailIff(ver: Tree, par: Option<string>, xs: seq<Json>)
    ensures ParseItems(ver, par, xs).Err? <==> !AdmissibleItems(xs)
    decreases xs
  {
    if xs != [] {
      ParseFailsIff(ver, par, xs[0]);
      match Parse(ver, par, xs[0])
      case Err(_) =>
      case Ok(next) => ItemsFailIff(next, par, xs[1..]);
    }
  }

  // ---------------------------------------------------------------------
  // What a successful parse adds

  /**
   * A successful parse keeps the node's base name, gives it the full name of
   * the step, keeps its existing children and appends one child per name of
   * `LevelNames(data)`: one per object key, one per string, arrays spliced in.
   * The result is a fixed point of the step, so parsing again under the same
   * parent does not move it.
   */
  lemma {:induction false} ParseShape(v: Tree, par: Option<string>, data: Json)
    requires Parse(v, par, data).Ok?
    ensures var r := Parse(v, par, data).value;
      && r.baseName == v.baseName
      && r.fullName == Step(v, par).fullName
      && Step(r, par) == r
      && v.children <= r.children
      && BaseNames(r.children) == BaseNames(v.children) + LevelNames(data)
    decreases data
  {
    var ver := Step(v, par);
    match data
    case Obj(ms) => MembersShape(ver, ms);
    case Arr(xs) =>
      StepKeeps(v, par);
      ItemsShape(ver, par, xs);
      ItemsNames(ver, par, xs);
    case Str(s) =>
      BaseNamesAppend(ver.children, [Leaf(s, ver.fullName)]);
      assert (ver.children + [Leaf(s, ver.fullName)])[..|v.children|] == v.children;
    case Other =>
  }

  lemma {:induction false} MembersShape(ver: Tree, ms: seq<Member>)
    requires ParseMembers(ver, ms).Ok?
    ensures var r := ParseMembers(ver, ms).value;
      && r.baseName == ver.baseName
      && r.fullName == ver.fullName
      && ver.children <= r.children
      && BaseNames(r.children) == BaseNames(ver.children) + Keys(ms)
    decreases ms
  {
    if ms != [] {
      var child := Parse(Fresh(ms[0].key), Some(ver.fullName), ms[0].value).value;
      assert child.baseName == ms[0].key by {
        ParseShape(Fresh(ms[0].key), Some(ver.fullName), ms[0].value);
      }
      var next := ver.(children := ver.children + [child]);
      assert ParseMembers(ver, ms) == ParseMembers(next, ms[1..]);
      MembersShape(next, ms[1..]);
      NamesAfterChild(ver.children, child, ms);
    }
  }

  /** Appending the child for the first member moves its key from the keys to the base names. */
  lemma {:induction false} NamesAfterChild(cs: seq<Tree>, child: Tree, ms: seq<Member>)
    requires ms != [] && child.baseName == ms[0].key
    ensures BaseNames(cs + [child]) + Keys(ms[1..]) == BaseNames(cs) + Keys(ms)
  {
    BaseNamesAppend(cs, [child]);
    assert Keys(ms) == [ms[0].key] + Keys(ms[1..]);
  }

  lemma {:induction false} ItemsShape(ver: Tree, par: Option<string>, xs: seq<Json>)
    requires Step(ver, par) == ver
    requires ParseItems(ver, par, xs).Ok?
    ensures var r := ParseItems(ver, par, xs).value;
      && r.baseName == ver.baseName
      && r.fullName == ver.fullName
      && Step(r, par) == r
      && ver.children <= r.children
    decreases xs
  {
    if xs != [] {
      var next := Parse(ver, par, xs[0]).value;
      assert ParseItems(ver, par, xs) == ParseItems(next, par, xs[1..]);
      ParseShape(ver, par, xs[0]);
      StepFixed(ver, next, par);
      ItemsShape(next, par, xs[1..]);
      var r := ParseItems(next, par, xs[1..]).value;
      StepFixed(ver, r, par);
    }
  }

  lemma {:induction false} ItemsNames(ver: Tree, par: Option<string>, xs: seq<Json>)
    requires Step(ver, par) == ver
    requires ParseItems(ver, par, xs).Ok?
    ensures BaseNames(ParseItems(ver, par, xs).value.children) == BaseNames(ver.children) + ItemsLevelNames(xs)
    decreases xs
  {
    if xs != [] {
      var next := Parse(ver, par, xs[0]).value;
      assert ParseItems(ver, par, xs) == ParseItems(next, par, xs[1..]);
      ParseShape(ver, par, xs[0]);
      StepFixed(ver, next, par);
      ItemsNames(next, par, xs[1..]);
      var a, b, c := BaseNames(ver.children), LevelNames(xs[0]), ItemsLevelNames(xs[1..]);
      assert ItemsLevelNames(xs) == b + c;
      assert (a + b) + c == a + (b + c);
    }
  }

  /** The number of children a successful parse adds is the number of level names of the value. */
  lemma ParseAddsChildren(v: Tree, par: Option<string>, data: Json)
    requires Parse(v, par, data).Ok?
    ensures |Parse(v, par, data).value.children| == |v.children| + |LevelNames(data)|
  {
    ParseShape(v, par, data);
  }

  // ---------------------------------------------------------------------
  // The full-name invariant

  /**
   * Parsing keeps the full-name invariant: if the node's existing children
   * are well named under the full name the step gives it, every node of the
   * result is well named.
   */
  lemma {:induction false} ParseWellNamed(v: Tree, par: Option<string>, data: Json)
    requires WellNamed(Step(v, par))
    requires Parse(v, par, data).Ok?
    ensures WellNamed(Parse(v, par, data).value)
    decreases data
  {
    var ver := Step(v, par);
    match data
    case Obj(ms) => MembersWellNamed(ver, ms);
    case Arr(xs) =>
      StepKeeps(v, par);
      ItemsWellNamed(ver, par, xs);
    case Str(s) =>
      var r := ver.(children := ver.children + [Leaf(s, ver.fullName)]);
      assert forall i :: 0 <= i < |ver.children| ==> r.children[i] == ver.children[i];
    case Other =>
  }

  lemma {:induction false} MembersWellNamed(ver: Tree, ms: seq<Member>)
    requires WellNamed(ver)
    requires ParseMembers(ver, ms).Ok?
    ensures WellNamed(ParseMembers(ver, ms).value)
    decreases ms
  {
    if ms != [] {
      var start := Fresh(ms[0].key);
      var child := Parse(start, Some(ver.fullName), ms[0].value).value;
      ParseShape(start, Some(ver.fullName), ms[0].value);
      ParseWellNamed(start, Some(ver.fullName), ms[0].value);
      var next := ver.(children := ver.children + [child]);
      assert forall i :: 0 <= i < |ver.children| ==> next.children[i] == ver.children[i];
      assert next.children[|ver.children|] == child;
      MembersWellNamed(next, ms[1..]);
    }
  }

  lemma {:induction false} ItemsWellNamed(ver: Tree, par: Option<string>, xs: seq<Json>)
    requires WellNamed(ver) && Step(ver, par) == ver
    requires ParseItems(ver, par, xs).Ok?
    ensures WellNamed(ParseItems(ver, par, xs).value)
    decreases xs
  {
    if xs != [] {
      ParseWellNamed(ver, par, xs[0]);
      ParseShape(ver, par, xs[0]);
      ItemsWellNamed(Parse(ver, par, xs[0]).value, par, xs[1..]);
    }
  }

  /**
   * The tree built at the synthetic root (`parse(root, nil, data)` with
   * `root := &node{}`): the root keeps an empty base name and an empty full
   * name, and every node below it is well named.
   */
  lemma BuildRoot(data: Json)
    requires Parse(Fresh([]), None, data).Ok?
    ensures var r := Parse(Fresh([]), None, data).value;
      r.baseName == [] && r.fullName == [] && WellNamed(r)
  {
    ParseShape(Fresh([]), None, data);
    ParseWellNamed(Fresh([]), None, data);
  }

  /**
   * Parsing the members of `xs + ys` in turn is parsing `xs`, then `ys` at
   * the result; an error among `xs` ends it.
   */
  lemma {:induction false} MembersAppend(ver: Tree, xs: seq<Member>, ys: seq<Member>)
    ensures ParseMembers(ver, xs + ys) ==
      match ParseMembers(ver, xs)
      case Err(e) => Err(e)
      case Ok(r) => ParseMembers(r, ys)
    decreases xs
  {
    if xs == [] {
      assert xs + ys == ys;
    } else {
      assert (xs + ys)[0] == xs[0] && (xs + ys)[1..] == xs[1..] + ys;
      match Parse(Fresh(xs[0].key), Some(ver.fullName), xs[0].value)
      case Err(_) =>
      case Ok(child) => MembersAppend(ver.(children := ver.children + [child]), xs[1..], ys);
    }
  }

  /** A member that parses adds its child after those of the members before it. */
  lemma MembersSnoc(ver: Tree, ms: seq<Member>, i: nat, r: Tree, child: Tree)
    requires i < |ms| && ParseMembers(ver, ms[..i]) == Ok(r)
    requires Parse(Fresh(ms[i].key), Some(r.fullName), ms[i].value) == Ok(child)
    ensures ParseMembers(ver, ms[..i + 1]) == Ok(r.(children := r.children + [child]))
  {
    MembersAppend(ver, ms[..i], [ms[i]]);
    assert ms[..i + 1] == ms[..i] + [ms[i]];
  }

  /**
   * When the members before `i` parse and member `i` does not, the object
   * fails, member `i` is the first inadmissible one, and the members before
   * it have already been added.
   */
  lemma MembersStopAt(ver: Tree, ms: seq<Member>, i: nat, r: Tree)
    requires i < |ms| && ParseMembers(ver, ms[..i]) == Ok(r)
    requires Parse(Fresh(ms[i].key), Some(r.fullName), ms[i].value).Err?
    ensures AdmissibleMembers(ms[..i]) && !Admissible(ms[i].value)
    ensures ParseMembers(ver, ms).Err?
  {
    ParseFailsIff(Fresh(ms[i].key), Some(r.fullName), ms[i].value);
    MembersFailIff(ver, ms[..i]);
    MembersAppend(ver, ms[..i], ms[i..]);
    assert ms[..i] + ms[i..] == ms;
    assert ms[i..][0] == ms[i];
  }

  // ---------------------------------------------------------------------
  // Arrays are transparent

  /** Parsing the elements of `xs + ys` in turn is parsing `xs`, then `ys` at the result. */
  lemma {:induction false} ItemsAppend(ver: Tree, par: Option<string>, xs: seq<Json>, ys: seq<Json>)
    ensures ParseItems(ver, par, xs + ys) ==
      match ParseItems(ver, par, xs)
      case Err(e) => Err(e)
      case Ok(r) => ParseItems(r, par, ys)
    decreases xs
  {
    if xs == [] {
      assert xs + ys == ys;
    } else {
      assert (xs + ys)[0] == xs[0] && (xs + ys)[1..] == xs[1..] + ys;
      match Parse(ver, par, xs[0])
      case Err(_) =>
      case Ok(next) => ItemsAppend(next, par, xs[1..], ys);
    }
  }

  /**
   * Splitting an array in two: parsing `Arr(xs + ys)` at a node is parsing
   * `Arr(xs)` there and then `Arr(ys)` at the result.
   */
  lemma ArraySplit(v: Tree, par: Option<string>, xs: seq<Json>, ys: seq<Json>)
    ensures Parse(v, par, Arr(xs + ys)) ==
      match Parse(v, par, Arr(xs))
      case Err(e) => Err(e)
      case Ok(r) => Parse(r, par, Arr(ys))
  {
    var ver := Step(v, par);
    StepKeeps(v, par);
    ItemsAppend(ver, par, xs, ys);
    if ParseItems(ver, par, xs).Ok? {
      ItemsShape(ver, par, xs);
    }
  }

  /** A nested array parses as its elements spliced in place of it. */
  lemma ArrayFlatten(v: Tree, par: Option<string>, xs: seq<Json>, ys: seq<Json>, zs: seq<Json>)
    ensures Parse(v, par, Arr(xs + [Arr(ys)] + zs)) == Parse(v, par, Arr(xs + ys + zs))
  {
    var ver := Step(v, par);
    StepKeeps(v, par);
    ItemsAppend(ver, par, xs + [Arr(ys)], zs);
    ItemsAppend(ver, par, xs, [Arr(ys)]);
    ItemsAppend(ver, par, xs + ys, zs);
    ItemsAppend(ver, par, xs, ys);
    if ParseItems(ver, par, xs).Ok? {
      var r := ParseItems(ver, par, xs).value;
      ItemsShape(ver, par, xs);
      match Parse(r, par, Arr(ys))
      case Err(_) =>
      case Ok(_) =>
    }
  }

  /** A one-element array parses as its element, and an empty array adds no children. */
  lemma ArrayUnits(v: Tree, par: Option<string>, x: Json)
    ensures Parse(v, par, Arr([x])) == Parse(v, par, x)
    ensures Parse(v, par, Arr([])) == Ok(Step(v, par))
  {
    var ver := Step(v, par);
    ParseAfterStep(v, par, x);
    assert [x][0] == x && [x][1..] == [];
    match Parse(ver, par, x)
    case Err(_) =>
    case Ok(next) => assert ParseItems(ver, par, [x]) == ParseItems(next, par, []);
  }
}
