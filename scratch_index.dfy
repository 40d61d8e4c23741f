/**
 * The scratch indexer: the callback `main` hands to `filepath.WalkDir`. The
 * walk itself is given as the sequence of entries it visits; the callback
 * appends every path to `scratches` and remembers the last non-directory entry
 * whose base name is `york.json` as the structure document.
 */
module ScratchIndex {
  import opened Wrappers
  import opened Paths

  /** The base name of the structure document. */
  const ProjectStructure := "york.json"

  /** One call of the walk callback: a visited entry, or an error the walk reports for `path`. */
  datatype WalkEntry = Visit(path: string, isDir: bool) | WalkError(path: string)

  /** The global state the callback builds: every visited path, and the structure document's path. */
  datatype Index = Index(scratches: seq<string>, specPath: string)

  /** Why indexing stops the run: the walk failed, or no `york.json` was found. */
  datatype IndexError = WalkFailed(path: string) | SpecMissing

  /** An entry that the callback takes for the structure document. */
  predicate IsSpec(e: WalkEntry)
  {
    e.Visit? && !e.isDir && Base(e.path) == ProjectStructure
  }

  /** The index of the first walk error, or the number of entries when there is none. */
  function FirstError(entries: seq<WalkEntry>): (k: nat)
    ensures k <= |entries|
    ensures k < |entries| ==> entries[k].WalkError?
    ensures forall i :: 0 <= i < k ==> entries[i].Visit?
  {
    if entries == [] || entries[0].WalkError? then 0 else 1 + FirstError(entries[1..])
  }

  /** The index of the last structure-document entry, or -1 when there is none. */
  function LastSpec(entries: seq<WalkEntry>): (j: int)
    ensures -1 <= j < |entries|
  {
    if entries == [] then -1
    else
      var rest := LastSpec(entries[1..]);
      if rest >= 0 then rest + 1 else if IsSpec(entries[0]) then 0 else -1
  }

  /** The path of every entry, in walk order. */
  function VisitedPaths(entries: seq<WalkEntry>): (ps: seq<string>)
    ensures |ps| == |entries|
    ensures forall i :: 0 <= i < |entries| ==> ps[i] == entries[i].path
  {
    if entries == [] then [] else [entries[0].path] + VisitedPaths(entries[1..])
  }

  /**
   * What indexing yields: the first walk error stops it; otherwise the run
   * needs a structure document, and the index lists every visited path with
   * the last structure document found.
   */
  function IndexOf(entries: seq<WalkEntry>): Result<Index, IndexError>
  {
    var k := FirstError(entries);
    if k < |entries| then Err(WalkFailed(entries[k].path))
    else
      var j := LastSpec(entries);
      if j < 0 then Err(SpecMissing) else Ok(Index(VisitedPaths(entries), entries[j].path))
  }

  /**
   * The walk with its callback, followed by the check in `main` that a
   * structure document was found (`len(pathToProjectStruct) == 0`).
   */
  method IndexScratches(entries: seq<WalkEntry>) returns (r: Result<Index, IndexError>)
    ensures r == IndexOf(entries)
  {
    var scratches: seq<string> := [];
    var specPath := "";
    ghost var last := -1;
    var i := 0;
    while i < |entries|
      invariant 0 <= i <= |entries|
      invariant FirstError(entries[..i]) == i
      invariant scratches == VisitedPaths(entries[..i])
      invariant last == LastSpec(entries[..i])
      invariant last < 0 ==> specPath == ""
      invariant last >= 0 ==> specPath == entries[last].path
    {
      match entries[i] {
        case WalkError(path) =>
          FirstErrorAfter(entries, i);
          return Err(WalkFailed(path));
        case Visit(path, isDir) =>
          var found;
          scratches, specPath, found := OnVisit(scratches, specPath, path, isDir);
          VisitStep(entries, i, found);
          if found {
            last := i;
          }
      }
      i := i + 1;
    }
    assert entries[..i] == entries;
    FirstErrorAfter(entries, i);
    LastSpecSpec(entries);
    if last >= 0 {
      SpecPathNonEmpty(entries[last]);
    }
    if |specPath| == 0 {
      return Err(SpecMissing);
    }
    return Ok(Index(scratches, specPath));
  }

  /**
   * The callback for a visited entry: the path is appended to `scratches`,
   * and a non-directory entry named `york.json` becomes the structure document.
   */
  method OnVisit(scratches: seq<string>, specPath: string, path: string, isDir: bool)
    returns (scratches': seq<string>, specPath': string, found: bool)
    ensures found == IsSpec(WalkEntry.Visit(path, isDir))
    ensures scratches' == scratches + [path]
    ensures specPath' == if found then path else specPath
  {
    found := !isDir && Base(path) == ProjectStructure;
    if found {
      specPath' := path;
    } else {
      specPath' := specPath;
    }
    scratches' := scratches + [path];
  }

  /** `LastSpec` finds a structure document, and none follows it. */
  lemma {:induction false} LastSpecSpec(entries: seq<WalkEntry>)
    ensures var j := LastSpec(entries);
      && (j >= 0 ==> IsSpec(entries[j]))
      && forall i :: j < i < |entries| ==> !IsSpec(entries[i])
  {
    if entries != [] {
      LastSpecSpec(entries[1..]);
      assert forall i :: 0 < i < |entries| ==> entries[i] == entries[1..][i - 1];
    }
  }

  /** `LastSpec` is the only index with its two defining properties. */
  lemma {:induction false} LastSpecIs(entries: seq<WalkEntry>, j: int)
    requires -1 <= j < |entries|
    requires j >= 0 ==> IsSpec(entries[j])
    requires forall i :: j < i < |entries| ==> !IsSpec(entries[i])
    ensures LastSpec(entries) == j
  {
    if entries != [] {
      var rest := entries[1..];
      assert forall i :: 0 <= i < |rest| ==> rest[i] == entries[i + 1];
      LastSpecIs(rest, if j >= 1 then j - 1 else -1);
    }
  }

  /** Appending an entry moves the last structure document to it exactly when it is one. */
  lemma {:induction false} LastSpecSnoc(entries: seq<WalkEntry>, e: WalkEntry)
    ensures LastSpec(entries + [e]) == if IsSpec(e) then |entries| else LastSpec(entries)
  {
    var s := entries + [e];
    if entries != [] {
      assert s[1..] == entries[1..] + [e];
      assert s[0] == entries[0];
      LastSpecSnoc(entries[1..], e);
    } else {
      assert s[1..] == [];
    }
  }

  /** What one visit adds to the indexed prefix, with `found` the callback's verdict on it. */
  lemma VisitStep(entries: seq<WalkEntry>, i: nat, found: bool)
    requires i < |entries| && entries[i].Visit? && found == IsSpec(entries[i])
    requires FirstError(entries[..i]) == i
    ensures FirstError(entries[..i + 1]) == i + 1
    ensures VisitedPaths(entries[..i + 1]) == VisitedPaths(entries[..i]) + [entries[i].path]
    ensures LastSpec(entries[..i + 1]) == if found then i else LastSpec(entries[..i])
  {
    assert entries[..i + 1] == entries[..i] + [entries[i]];
    LastSpecSnoc(entries[..i], entries[i]);
    VisitedPathsSnoc(entries[..i], entries[i]);
    FirstErrorSnoc(entries[..i], entries[i]);
  }

  /** A structure-document path is never empty, since `path.Base("")` is ".". */
  lemma SpecPathNonEmpty(e: WalkEntry)
    requires IsSpec(e)
    ensures e.path != []
  {
  }

  /** The first error is at `i` when every entry before `i` is a visit and `i` is an error or the end. */
  lemma {:induction false} FirstErrorAt(entries: seq<WalkEntry>, i: nat)
    requires i <= |entries|
    requires forall k :: 0 <= k < i ==> entries[k].Visit?
    requires i < |entries| ==> entries[i].WalkError?
    ensures FirstError(entries) == i
    decreases i
  {
    if i > 0 {
      FirstErrorAt(entries[1..], i - 1);
    }
  }

  /** Every entry of the prefix up to `i` is a visit and the entry at `i` is an error or the end. */
  lemma FirstErrorAfter(entries: seq<WalkEntry>, i: nat)
    requires i <= |entries| && FirstError(entries[..i]) == i
    requires i < |entries| ==> entries[i].WalkError?
    ensures FirstError(entries) == i
  {
    assert forall k :: 0 <= k < i ==> entries[k] == entries[..i][k];
    FirstErrorAt(entries, i);
  }

  /** A visit appended after a prefix of visits extends it. */
  lemma {:induction false} FirstErrorSnoc(entries: seq<WalkEntry>, e: WalkEntry)
    requires FirstError(entries) == |entries| && e.Visit?
    ensures FirstError(entries + [e]) == |entries| + 1
  {
    if entries != [] {
      assert (entries + [e])[1..] == entries[1..] + [e];
      FirstErrorSnoc(entries[1..], e);
    }
  }

  /** Appending an entry appends its path. */
  lemma {:induction false} VisitedPathsSnoc(entries: seq<WalkEntry>, e: WalkEntry)
    ensures VisitedPaths(entries + [e]) == VisitedPaths(entries) + [e.path]
  {
    if entries != [] {
      assert (entries + [e])[1..] == entries[1..] + [e];
      VisitedPathsSnoc(entries[1..], e);
    }
  }

  /**
   * Indexing fails with `SpecMissing` exactly when the walk meets no error
   * and no non-directory entry is named `york.json`; on success the structure
   * document's path ends in `york.json` and is one of the listed paths.
   */
  lemma IndexOutcome(entries: seq<WalkEntry>)
    ensures IndexOf(entries) == Err(SpecMissing) <==>
      (forall i :: 0 <= i < |entries| ==> entries[i].Visit? && !IsSpec(entries[i]))
    ensures IndexOf(entries).Ok? ==>
      Base(IndexOf(entries).value.specPath) == ProjectStructure &&
      IndexOf(entries).value.specPath in IndexOf(entries).value.scratches
  {
    var k := FirstError(entries);
    LastSpecSpec(entries);
    if k == |entries| && LastSpec(entries) >= 0 {
      var j := LastSpec(entries);
      assert VisitedPaths(entries)[j] == entries[j].path;
    }
  }
}
