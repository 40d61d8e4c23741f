# york, modelled in Dafny

york scaffolds a project from a structure document. It walks a scratch
directory and records every path it finds. The path of the last non-directory
entry called `york.json` becomes the structure document. The document is decoded as
JSON, and `parse` turns it into a tree of `node` records under a synthetic,
unnamed root:

- an object key is a child node;
- a string is a leaf file under the current node;
- an array splices its elements into the current node.

`generate` then creates the tree on disk:

- an empty file for a named node without children;
- a `0755` directory for a named node with children.

The first failing call stops it. `populate` pairs each node that has one with
the first scratch path whose `path.Base` is the node's base name. The copy loop then
copies each scratch file into its node's file.

The model follows the program's structure, one module per component:

- `Wrappers`: `Option` and `Result`.
- `JsonValue`: the decoded document.
  - A JSON object is one iteration order of its members.
  - Every value other than an object, an array or a string is `Other`.
- `Paths`:
  - the full-name rule, `JoinName`;
  - Go's `path.Base`, written out over strings, with lemmas on its shape.
- `Trees`: the value of a node tree.
  - pre-order listing;
  - the full-name invariant, `WellNamed`.
- `TreeBuilder`: `parse` as a function on tree values.
  - the object, array and string branches;
  - the two copies of the full-name rule;
  - the error case.
- `Nodes`: the `node` record as a class with `parent`, `children`, `baseName` and `fullName` fields.
  - The imperative `parse` updates those fields in place.
  - It is proved to compute exactly `TreeBuilder.Parse`.
  - It reports an error exactly when that function does.
- `Materializer`: `generate`.
  - Filesystem calls become `Action` values.
  - Whether each call succeeds is a parameter, which sees the calls the run has already made.
  - The recursive walk is proved to carry out the pre-order plan and stop at its first failure.
- `Populator`: `populate`.
  - `slices.IndexFunc` with `path.Base` becomes `FirstMatch`.
  - The channel becomes the returned sequence of `CopyPair`s.
- `ScratchIndex`: the `filepath.WalkDir` callback.
  - It is a loop over the sequence of walk entries.
  - `scratches` and `pathToProjectStruct` are its local state.
  - The loop is proved to compute `IndexOf`.
- `Pipeline`: `main` up to the copy loop.
  - The stages run in order.
  - Each `log.Fatal` becomes an error value.
- `Scenarios`: small structure documents run through the builder, the materializer and the populator.
  - The names are parameters.
  - One document repeats a key, so `generate` makes the same directory twice.

## Model

| member | source | states |
|---|---|---|
| Paths.JoinName | main.go:117-123 | defines the full-name rule; its promises are `TreeBuilder.BranchesAgree` and `Paths.BaseOfJoinName` |
| Paths.Base | main.go:44 | defines Go's `path.Base`; its promises are `BaseShape`, `BaseIsSlashIff`, `BaseIdempotent`, `BaseOfElement` and `BaseOfJoin` |
| Paths.TrimTrailingSlashesSpec | main.go:44 | removing trailing slashes, the first step of `path.Base`, keeps a prefix that does not end in a slash and drops only slashes |
| Paths.LastSlashSpec | main.go:44 | the index it finds holds a slash and no slash follows it, or there is no slash at all |
| Paths.BaseShape | main.go:186-188 | `path.Base` never returns the empty string, and its result has no slash unless it is exactly "/" |
| Paths.BaseOfElement | main.go:186-188 | a single path element is its own base name |
| Paths.BaseOfJoin | main.go:186-188 | a directory joined with a single element by a slash has that element as its base name |
| Paths.BaseOfJoinName | main.go:117-123 | a full name made by the full-name rule ends in the node's base name, for a root or a non-root parent |
| Paths.BaseIsSlashIff | main.go:44 | `path.Base` is "/" exactly for non-empty paths made only of slashes |
| Paths.BaseIdempotent | main.go:186-188 | `path.Base` of a base name is that base name |
| Trees.Preorder | main.go:177-181 | the listing of a subtree starts with its root, so a node is visited before its children |
| Trees.PreorderAllMember | main.go:177-181 | every node listed below some children lies in the subtree of one of them |
| Trees.DescendantsInside | main.go:117-123 | in a well-named tree with a named root, every node below the root has a full name inside the root's directory |
| Trees.BaseOfFullName | main.go:144-150 | in a well-named tree, a node whose base name is one path element has it as the `path.Base` of its full name |
| TreeBuilder.Step | main.go:116-123 | defines the step at the top of `parse`; its promises are `StepKeeps`, `StepFixed` and `BranchesAgree` |
| TreeBuilder.Leaf | main.go:143-151 | defines the leaf of the string branch; its promise is `BranchesAgree` |
| TreeBuilder.Parse | main.go:115-157 | defines `parse`; its promises are `ParseFailsIff`, `ParseShape`, `ParseWellNamed`, `ParseAddsChildren` and `ArrayFlatten` |
| TreeBuilder.ParseMembers | main.go:126-133 | defines the object branch; its promises are `MembersFailIff`, `MembersStopAt`, `MembersAppend`, `MembersShape` and `MembersWellNamed` |
| TreeBuilder.ParseItems | main.go:135-140 | defines the array branch; its promises are `ItemsFailIff`, `ItemsAppend`, `ItemsShape`, `ItemsNames` and `ItemsWellNamed` |
| TreeBuilder.BranchesAgree | main.go:116-150 | both copies of the full-name rule (the generic step and the leaf's own) give `JoinName` of the parent's full name and the base name; a leaf equals the fresh node the generic step would link; the step is idempotent |
| TreeBuilder.StepKeeps | main.go:115-123 | linking never changes the base name or the children; a nil parent leaves the full name alone; linking twice under the same parent is linking once |
| TreeBuilder.StepFixed | main.go:115-123 | a node with the base and full name of an already-linked node is itself already linked |
| TreeBuilder.ParseAfterStep | main.go:135-140 | re-linking a node under the same parent before parsing changes nothing, which is what the array branch does |
| TreeBuilder.ParseFailsIff | main.go:124-154 | `parse` fails exactly when some value reachable through objects and arrays is not an object, an array or a string |
| TreeBuilder.MembersFailIff | main.go:126-133 | the object branch fails exactly when one of its members' values is inadmissible; that it stops at the first is `MembersStopAt` and `MembersAppend` |
| TreeBuilder.ItemsFailIff | main.go:135-140 | the array branch fails exactly when one of its elements is inadmissible |
| TreeBuilder.ParseShape | main.go:115-157 | a successful parse keeps the base name, sets the full name by the rule, leaves a linked node, keeps the existing children as a prefix and appends one child per object key or string, with arrays spliced in, in order |
| TreeBuilder.MembersAppend | main.go:126-133 | parsing the members of `xs + ys` is parsing `xs` and then `ys` at the result, and stops at the first failure |
| TreeBuilder.MembersSnoc | main.go:128-132 | a member whose value parses extends the object branch's result by that child, appended last |
| TreeBuilder.MembersStopAt | main.go:129-131 | a member whose value fails ends the object branch with an error; every member before it is admissible and its own value is not |
| TreeBuilder.MembersShape | main.go:126-133 | the object branch appends one child per key, in member order, named by the key |
| TreeBuilder.ItemsShape | main.go:135-140 | the array branch keeps the node's names, leaves it linked and only appends children |
| TreeBuilder.ItemsNames | main.go:135-140 | the array branch appends the children of its elements one element after another |
| TreeBuilder.ParseAddsChildren | main.go:124-151 | the number of children a parse adds is the number of keys and strings at that level |
| TreeBuilder.ParseWellNamed | main.go:115-157 | parsing keeps the full-name invariant: every node it creates has its parent's full name joined with its base name |
| TreeBuilder.MembersWellNamed | main.go:126-133 | the object branch keeps the full-name invariant |
| TreeBuilder.ItemsWellNamed | main.go:135-140 | the array branch keeps the full-name invariant |
| TreeBuilder.BuildRoot | main.go:69-72 | the tree built at `root := &node{}` with a nil parent keeps an empty base and full name, and is well named throughout |
| TreeBuilder.ItemsAppend | main.go:136-140 | parsing the elements of `xs + ys` is parsing `xs` and then `ys` at the result, and stops at the first failure |
| TreeBuilder.ArraySplit | main.go:135-140 | an array split in two parses as the first part followed by the second, at the same node |
| TreeBuilder.ArrayFlatten | main.go:135-140 | a nested array parses exactly as its elements spliced in place of it |
| TreeBuilder.ArrayUnits | main.go:135-140 | a one-element array parses as its element, and an empty array only links the node |
| Nodes.Node.constructor | main.go:128 | `&node{baseName: key}` has no children and an empty full name, and its value is a fresh tree |
| Nodes.AppendChild | main.go:132 | `append(ver.children, child)` of a child that shares no node with `ver` adds the child's subtree as the last child and changes nothing else |
| Nodes.ChildrenDistinct | main.go:128-132 | the linked nodes form a tree: no node is a child of the same node twice, as each child is freshly allocated |
| Nodes.Link | main.go:116-123 | `ver.parent = par` and the full name the rule derives from a non-nil parent, as `TreeBuilder.Step` |
| Nodes.Parse | main.go:115-157 | the in-place `parse` leaves the subtree equal to `TreeBuilder.Parse` of the old one, and reports an error exactly when that fails |
| Nodes.ParseMembers | main.go:126-133 | the object loop creates, parses and appends one node per member, as `TreeBuilder.ParseMembers`; on an error it returns at the first inadmissible member, with the children of the members before it attached and the failing child not attached |
| Nodes.ParseItems | main.go:135-140 | the array loop parses every element at the same node under the same parent, as `TreeBuilder.ParseItems` |
| Nodes.AddLeaf | main.go:142-151 | the string branch appends the leaf `TreeBuilder.Leaf` with its own copy of the full-name rule |
| Nodes.Snapshot | main.go:30-35 | the tree read from the node fields is the subtree's value |
| Materializer.ActionFor | main.go:160-175 | defines what `generate` does for a node itself; its promises are `PlanCoversNodes` and `DirectoryFirst` |
| Materializer.Generate | main.go:159-183 | defines the recursive `generate`; its promise is `GenerateRunsPlan` |
| Materializer.GenerateAll | main.go:177-181 | defines the loop over the children; its promise is `GenerateAllRunsPlan` |
| Materializer.RunPlan | main.go:163-182 | defines carrying out a plan until the first failing call; its promises are `RunPlanShape`, `RunPlanCalls`, `RunPlanStops` and `RunPlanAppend` |
| Materializer.ActionsMembers | main.go:160-176 | an action is planned for a list of nodes exactly when it is one node's action |
| Materializer.RunPlanShape | main.go:177-182 | carrying out a plan does a prefix of it, all of it when no call fails; the failed action, if any, is the next one in the plan |
| Materializer.RunPlanCalls | main.go:163-175 | every action done succeeded after the calls made before it in the run |
| Materializer.RunPlanStops | main.go:163-182 | the failed action's call failed after the actions done, and the walk returns there |
| Materializer.RunPlanAppend | main.go:177-182 | running two plans in turn, the second after the calls of the first, is running their concatenation, and nothing runs after a failure |
| Materializer.GenerateRunsPlan | main.go:159-183 | the recursive `generate` carries out the pre-order plan and stops at its first failing call |
| Materializer.GenerateAllRunsPlan | main.go:177-181 | the children are generated in order, each subtree's plan after the previous one's |
| Materializer.DirectoryFirst | main.go:170-181 | a named node with children is made first, as a 0755 directory, and in a well-named tree every later action is inside that directory |
| Materializer.RepeatedMkdirFails | main.go:172 | `os.Mkdir` fails on an existing path, so on a filesystem that refuses a directory the run already made, a plan with a `Mkdir` at a path an earlier action used never completes |
| Materializer.PlanCoversNodes | main.go:160-176 | an action is planned exactly when some named node needs it: an empty file for a node without children, a 0755 directory for one with children |
| Populator.MatchFor | main.go:186-191 | defines the pair a node sends; its promises are `SentIsFirstMatch`, `FirstMatchIsSent` and `UnnamedNeverMatches` |
| Populator.Populate | main.go:185-198 | defines the recursive `populate`; its promises are `PopulateIsPreorder` and `PopulateSpec` |
| Populator.PopulateAll | main.go:192-196 | defines the loop over the children; its promise is `PopulateIsPreorder` |
| Populator.FirstMatch | main.go:186-188 | `slices.IndexFunc` gives -1 or an index of the scratch list |
| Populator.FirstMatchSpec | main.go:186-188 | the index found has the node's base name and no earlier path has it; -1 means no path has it |
| Populator.FirstMatchMiss | main.go:186-188 | no path with that base name gives -1 |
| Populator.FirstMatchIs | main.go:186-188 | the smallest index with that base name is the one returned |
| Populator.MatchesMembers | main.go:189-191 | a pair is sent for a list of nodes exactly when it is one node's match |
| Populator.PopulateIsPreorder | main.go:185-198 | the recursive `populate` sends the nodes' matches in pre-order |
| Populator.PopulateSpec | main.go:185-198 | at most one pair per node; a pair is sent exactly when some node has its destination as full name and its source is the first scratch path with the node's base name |
| Populator.SentIsFirstMatch | main.go:186-190 | every pair sent comes from a node and that node's first match |
| Populator.FirstMatchIsSent | main.go:186-190 | every node's first match is sent |
| Populator.UnnamedNeverMatches | main.go:186-190 | a node with an empty base name, such as the root, never matches, because `path.Base` is never empty |
| Populator.PairsShareBaseName | main.go:185-198 | in a well-named tree under the root with no node named "/", every pair copies into a destination with the source's base name |
| ScratchIndex.IsSpec | main.go:44 | defines the test for the structure document; its promises are `LastSpecSpec`, `OnVisit` and `IndexOutcome` |
| ScratchIndex.IndexOf | main.go:40-56 | defines the outcome of the walk and the empty-path check; its promises are `IndexScratches` and `IndexOutcome` |
| ScratchIndex.FirstError | main.go:40-43 | the first walk error is reported, and every entry before it was visited |
| ScratchIndex.VisitedPaths | main.go:47 | every visited path is appended to `scratches`, in walk order |
| ScratchIndex.LastSpecSpec | main.go:44-46 | the structure document is a non-directory entry named `york.json` and no later entry is one |
| ScratchIndex.LastSpecIs | main.go:44-46 | the last such entry is the one recorded |
| ScratchIndex.LastSpecSnoc | main.go:44-46 | a new entry replaces the recorded structure document exactly when it is a non-directory entry named `york.json` |
| ScratchIndex.OnVisit | main.go:44-48 | the callback appends the path, and records it exactly when it is a non-directory entry named `york.json` |
| ScratchIndex.VisitStep | main.go:44-48 | one visit extends the scratch list by its path and moves the structure document to it exactly when it is one |
| ScratchIndex.IndexScratches | main.go:40-56 | the walk with its callback and the empty-path check compute `IndexOf`: the first walk error, or a missing structure document, or every path with the last structure document |
| ScratchIndex.FirstErrorAt | main.go:40-43 | the first error is at the first entry that is not a visit |
| ScratchIndex.FirstErrorAfter | main.go:40-43 | a prefix of visits followed by an error or the end fixes where the first error is |
| ScratchIndex.FirstErrorSnoc | main.go:40-43 | a visit after a prefix of visits extends that prefix |
| ScratchIndex.VisitedPathsSnoc | main.go:47 | appending an entry appends its path |
| ScratchIndex.SpecPathNonEmpty | main.go:54-56 | a recorded structure-document path is never empty, so the empty-path check only fires when none was found |
| ScratchIndex.IndexOutcome | main.go:40-56 | `york.json` is reported missing exactly when the walk meets no error and no non-directory entry has that name; on success the document's path has base name `york.json` and is among the scratches |
| Pipeline.RunOf | main.go:37-91 | defines the stages of `main` up to the copy loop; its promises are `Run`, `ParseFailsIff` and `RunGuarantees` |
| Pipeline.Run | main.go:37-91 | the stages, run in order on linked nodes, give exactly `RunOf`: the first failing stage's error, or the tree, the filesystem calls made and the copies requested |
| Pipeline.ParseFailsIff | main.go:58-72 | a run stops at parsing exactly when indexing and loading succeed and the document holds an inadmissible value |
| Pipeline.RunGuarantees | main.go:69-91 | a run that reaches the copies built a well-named tree under an unnamed root, carried out its whole plan, and every copy goes into a path that `generate` created |
| Scenarios.DirBuild | main.go:135-151 | an array of two strings under a key adds the two files, in order, inside that key's directory |
| Scenarios.DocumentBuild | main.go:115-157 | `{dir: [first, second], top: []}` builds the directory with its two files and a childless `top` |
| Scenarios.DocumentPreorder | main.go:177-181 | that tree's nodes in pre-order |
| Scenarios.DocumentPlan | main.go:159-183 | `generate` makes `dir` with 0755 before its two files, and makes the childless `top` an empty file |
| Scenarios.ScratchBases | main.go:186-188 | the base names of the scratch directory's walk entries |
| Scenarios.DirHit | main.go:186-188 | the directory's name matches the scratch directory of that name first |
| Scenarios.FileHit | main.go:186-188 | the first file's name matches its scratch file first |
| Scenarios.ScratchMiss | main.go:186-188 | a name carried by no scratch entry matches nothing |
| Scenarios.DocumentCopies | main.go:185-198 | the directory node is paired with the scratch directory and `dir/first` with its scratch file; the other nodes and the root get no pair |
| Scenarios.RepeatedKeyBuild | main.go:124-140 | `{dir: [{sub: first}, {sub: second}]}` gives `dir` two children, both with full name `dir/sub` |
| Scenarios.RepeatedKeyPlan | main.go:159-183 | for that tree `generate` makes `dir/sub` twice, once before each file |
| Scenarios.RepeatedKeyFails | main.go:170-175 | on a filesystem that refuses an existing directory, generating that tree fails |
| Scenarios.StringUnderKey | main.go:124-154 | `{key: s}` makes `key` a directory holding `key/s`; a key holding any other kind of value is rejected |

## Left out

- Filesystem I/O. The walk is a sequence of `WalkEntry` values in the order `filepath.WalkDir` delivers them. `os.Create`, `file.Close` and `os.Mkdir` are `Action`s whose success is the parameter `succeeds`, given the calls of the run made before. Files and directories that exist before the run are part of that parameter. A create whose close fails is a failed `CreateFile`. The process umask is not modelled.
- Reading and decoding `york.json`. `os.ReadFile` and `json.Unmarshal` into `map[string]any` are the parameter `load`, which returns the top-level members or `None`. A top-level array or string fails to decode in Go, so it appears as `None`. A `null` document decodes to a nil map, which ranges as an empty object, so it appears as `Some([])`. `load` gives the members of the decoded map, so their keys are distinct: Go's decoder collapses a key repeated in the document text, the last value winning. `Obj` admits repeated keys, and the model does not collapse them.
- Go map iteration order is randomised. The model takes an object's members in the order of the sequence, and every lemma holds for every order.
- The copy loop (main.go:82-110) is not modelled: the buffered channel, the goroutines, `os.OpenFile`, `os.Open` and `io.Copy`. Neither is the fact that `main` can return before the copies finish. `populate` is modelled as the sequence of pairs it sends. The Go function never returns a non-nil error, so the model has no error for it.
- Flags, `log.Println`, and the unused `-name` and `-verbose` flags are not modelled. The scratch root is implicit in the walk entries. `log.Fatal` and `log.Fatalf` become error values of `Pipeline.RunError`.
- The debug printer `walk` (main.go:200-208) is not modelled. Its only call is commented out.
- Nodes.Parse: on an error it states only that the node stays valid, keeps its base name and is linked to its parent, not which children the partial parse left, because `main` calls `log.Fatal` straight after a failed parse and never reads the partial tree.
- Nodes.ParseItems: on an error it states only the same facts; an element that fails after a nested object has attached some of its children leaves those children in place, and `main` never reads them.
- Pointer identity is modelled only as far as the node invariant needs: footprints nested in the parent's and excluding it, disjoint between siblings, and back-pointers. `Nodes.Parse` requires `par != ver`, and `main` always meets that.
- Behaviour the source has that the model keeps as is:
  - Directory nodes are matched against scratch paths like files, so a directory can be paired with a scratch directory (`Scenarios.DocumentCopies`). The copy loop then opens that directory for writing (main.go:94), which fails on a directory, and `log.Fatal` ends the process, so that scenario is not a run that completes.
  - `york.json` itself is among the scratch paths.
  - When several non-directory entries are called `york.json`, the last one visited wins, and a directory with that name is ignored.
  - The children of a node keep the order in which they were appended.
