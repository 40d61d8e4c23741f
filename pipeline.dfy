/**
 * The run of `main`: index the scratch directory, read the structure
 * document, build the tree under a synthetic root, create the tree on disk,
 * then pair every node with the scratch file it is filled from. Each stage
 * that fails ends the run with its error and nothing after it happens.
 */
module Pipeline {
  import opened Wrappers
  import opened JsonValue
  import opened Paths
  import opened Trees
  import TreeBuilder
  import Nodes
  import opened Materializer
  import opened Populator
  import opened ScratchIndex

  /** Why a run stops: each `log.Fatal` of `main` before the copies start. */
  datatype RunError =
    | IndexFailed(cause: IndexError)
    | LoadFailed(path: string)
    | ParseFailed(reason: TreeBuilder.ParseError)
    | GenerateFailed(action: Action)

  /** A run that reaches the copy stage: the tree, the filesystem calls made, and the copies requested. */
  datatype Report = Report(tree: Tree, created: seq<Action>, copies: seq<CopyPair>)

  /**
   * The run as a value. `load` reads and decodes the structure document at
   * a path, `None` when `os.ReadFile` or `json.Unmarshal` fails;
   * `succeeds(made, a)` tells whether a filesystem call `a` of `generate`
   * succeeds after the calls `made` of this run.
   */
  function RunOf(entries: seq<WalkEntry>, load: string -> Option<seq<Member>>, succeeds: (seq<Action>, Action) -> bool)
    : Result<Report, RunError>
  {
    match IndexOf(entries)
    case Err(e) => Err(IndexFailed(e))
    case Ok(index) =>
      match load(index.specPath)
      case None => Err(LoadFailed(index.specPath))
      case Some(doc) =>
        match TreeBuilder.Parse(Fresh([]), None, Obj(doc))
        case Err(e) => Err(ParseFailed(e))
        case Ok(t) =>
          var o := Generate(t, [], succeeds);
          if o.failed.Some? then Err(GenerateFailed(o.failed.value))
          else Ok(Report(t, o.done, Populate(t, index.scratches)))
  }

  /**
   * `main` up to the copy loop: the stages in order on the linked nodes,
   * computing exactly `RunOf`.
   */
  method Run(entries: seq<WalkEntry>, load: string -> Option<seq<Member>>, succeeds: (seq<Action>, Action) -> bool)
    returns (r: Result<Report, RunError>)
    ensures r == RunOf(entries, load, succeeds)
  {
    var index := IndexScratches(entries);
    if index.Err? {
      return Err(IndexFailed(index.error));
    }
    var doc := load(index.value.specPath);
    if doc.None? {
      return Err(LoadFailed(index.value.specPath));
    }
    var root := new Nodes.Node([], null);
    var err := Nodes.Parse(root, null, Obj(doc.value));
    if err.Some? {
      assert TreeBuilder.Parse(Fresh([]), None, Obj(doc.value)).error == err.value by {
        assert TreeBuilder.Parse(Fresh([]), None, Obj(doc.value)).error.UnsupportedFileDefinition?;
        assert err.value.UnsupportedFileDefinition?;
      }
      return Err(ParseFailed(err.value));
    }
    var t := Nodes.Snapshot(root);
    var o := Generate(t, [], succeeds);
    if o.failed.Some? {
      return Err(GenerateFailed(o.failed.value));
    }
    return Ok(Report(t, o.done, Populate(t, index.value.scratches)));
  }

  /**
   * The structure document is rejected exactly when indexing and loading
   * succeed and the document holds a value that is not an object, an array
   * or a string.
   */
  lemma ParseFailsIff(entries: seq<WalkEntry>, load: string -> Option<seq<Member>>, succeeds: (seq<Action>, Action) -> bool)
    ensures RunOf(entries, load, succeeds).Err? && RunOf(entries, load, succeeds).error.ParseFailed? <==>
      && IndexOf(entries).Ok?
      && load(IndexOf(entries).value.specPath).Some?
      && !AdmissibleMembers(load(IndexOf(entries).value.specPath).value)
  {
    if IndexOf(entries).Ok? && load(IndexOf(entries).value.specPath).Some? {
      var doc := load(IndexOf(entries).value.specPath).value;
      TreeBuilder.ParseFailsIff(Fresh([]), None, Obj(doc));
    }
  }

  /**
   * A run that reaches the copy stage built a well-named tree under an
   * unnamed root, carried out its whole pre-order plan, and every copy it
   * requests goes into a path that `generate` created.
   */
  lemma RunGuarantees(entries: seq<WalkEntry>, load: string -> Option<seq<Member>>, succeeds: (seq<Action>, Action) -> bool)
    requires RunOf(entries, load, succeeds).Ok?
    ensures var rep := RunOf(entries, load, succeeds).value;
      && WellNamed(rep.tree) && rep.tree.baseName == [] && rep.tree.fullName == []
      && rep.created == Plan(rep.tree)
      && forall p :: p in rep.copies ==> exists a :: a in rep.created && a.path == p.dst
  {
    var index := IndexOf(entries).value;
    var doc := load(index.specPath).value;
    var t := TreeBuilder.Parse(Fresh([]), None, Obj(doc)).value;
    var rep := RunOf(entries, load, succeeds).value;
    assert rep.tree == t;
    TreeBuilder.BuildRoot(Obj(doc));
    GenerateRunsPlan(t, [], succeeds);
    RunPlanShape(Plan(t), [], succeeds);
    assert rep.created == Plan(t);
    forall p | p in rep.copies
      ensures exists a :: a in rep.created && a.path == p.dst
    {
      PopulateSpec(t, index.scratches, p);
      var n, k :| n in Preorder(t) && 0 <= k < |index.scratches| &&
         p == CopyPair(n.fullName, index.scratches[k]) && Base(index.scratches[k]) == n.baseName &&
         (forall j :: 0 <= j < k ==> Base(index.scratches[j]) != n.baseName);
      BaseShape(index.scratches[k]);
      var a := if |n.children| == 0 then CreateFile(n.fullName) else Mkdir(n.fullName, DirPerm);
      PlanCoversNodes(t, a);
      assert a in rep.created && a.path == p.dst;
    }
  }
}
