/**
 * The filesystem materializer (`generate` in main.go), with the filesystem
 * abstracted away: instead of calling `os.Create` and `os.Mkdir`, the model
 * lists the calls it makes. Whether a call succeeds is given by the parameter
 * `succeeds`, which sees the calls this run has already made, so that a
 * second `os.Mkdir` of a path the run created can fail.
 */
module Materializer {
  import opened Wrappers
  import opened Trees

  /** The permission bits of every directory `generate` creates: octal 0755. */
  const DirPerm: int := 0x1ED

  /** A filesystem call of `generate`: create an empty file, or make a directory. */
  datatype Action = CreateFile(path: string) | Mkdir(path: string, perm: int)

  /** The actions carried out, and the action whose call failed, if any. */
  datatype Outcome = Outcome(done: seq<Action>, failed: Option<Action>)

  /**
   * What `generate` does for a node itself: nothing for an empty base name,
   * an empty file at the full name for a node without children, a directory
   * for a node with children.
   */
  function ActionFor(t: Tree): Option<Action>
  {
    if |t.baseName| > 0 then
      if |t.children| == 0 then Some(CreateFile(t.fullName)) else Some(Mkdir(t.fullName, DirPerm))
    else None
  }

  /**
   * `generate(ver)`: the node's own action, then each child in order; the
   * first call that fails ends the whole walk. `made` holds the calls made
   * before, and `succeeds(made, a)` tells whether `a` succeeds after them.
   */
  function Generate(t: Tree, made: seq<Action>, succeeds: (seq<Action>, Action) -> bool): Outcome
    decreases t
  {
    match ActionFor(t)
    case None => GenerateAll(t.children, made, succeeds)
    case Some(a) =>
      if !succeeds(made, a) then Outcome([], Some(a))
      else
        var rest := GenerateAll(t.children, made + [a], succeeds);
        Outcome([a] + rest.done, rest.failed)
  }

  function GenerateAll(ts: seq<Tree>, made: seq<Action>, succeeds: (seq<Action>, Action) -> bool): Outcome
    decreases ts
  {
    if ts == [] then Outcome([], None)
    else
      var first := Generate(ts[0], made, succeeds);
      if first.failed.Some? then first
      else
        var rest := GenerateAll(ts[1..], made + first.done, succeeds);
        Outcome(first.done + rest.done, rest.failed)
  }

  /** The actions for a list of nodes, one per node that has one, in list order. */
  function Actions(ns: seq<Tree>): (as_: seq<Action>)
    ensures |as_| <= |ns|
  {
    if ns == [] then []
    else
      var here := match ActionFor(ns[0]) case Some(a) => [a] case None => [];
      here + Actions(ns[1..])
  }

  /** An action is in the list's actions exactly when it is the action of one of its nodes. */
  lemma {:induction false} ActionsMembers(ns: seq<Tree>, a: Action)
    ensures a in Actions(ns) <==> exists i :: 0 <= i < |ns| && ActionFor(ns[i]) == Some(a)
  {
    if ns != [] {
      var rest := ns[1..];
      ActionsMembers(rest, a);
      if a in Actions(rest) {
        var i :| 0 <= i < |rest| && ActionFor(rest[i]) == Some(a);
        assert ns[i + 1] == rest[i];
      }
      if exists i :: 0 <= i < |ns| && ActionFor(ns[i]) == Some(a) {
        var i :| 0 <= i < |ns| && ActionFor(ns[i]) == Some(a);
        if i > 0 {
          assert rest[i - 1] == ns[i];
        }
      }
    }
  }

  /** The complete plan of a walk that meets no failure: the actions of the nodes in pre-order. */
  function Plan(t: Tree): seq<Action>
  {
    Actions(Preorder(t))
  }

  /** Carrying out a plan after the calls `made` until its first failing action. */
  function RunPlan(plan: seq<Action>, made: seq<Action>, succeeds: (seq<Action>, Action) -> bool): Outcome
  {
    if plan == [] then Outcome([], None)
    else if !succeeds(made, plan[0]) then Outcome([], Some(plan[0]))
    else
      var rest := RunPlan(plan[1..], made + [plan[0]], succeeds);
      Outcome([plan[0]] + rest.done, rest.failed)
  }

  /**
   * The actions done are a prefix of the plan, all of it when nothing fails,
   * and the failed one, if any, is the next action of the plan.
   */
  lemma {:induction false} RunPlanShape(plan: seq<Action>, made: seq<Action>, succeeds: (seq<Action>, Action) -> bool)
    ensures var o := RunPlan(plan, made, succeeds);
      && o.done <= plan
      && (o.failed.None? ==> o.done == plan)
      && (o.failed.Some? ==> |o.done| < |plan| && o.failed.value == plan[|o.done|])
  {
    if plan != [] && succeeds(made, plan[0]) {
      RunPlanShape(plan[1..], made + [plan[0]], succeeds);
      assert plan == [plan[0]] + plan[1..];
    }
  }

  /** Every action done succeeded, after the calls made before it. */
  lemma {:induction false} RunPlanCalls(plan: seq<Action>, made: seq<Action>, succeeds: (seq<Action>, Action) -> bool, i: int)
    requires 0 <= i < |RunPlan(plan, made, succeeds).done|
    ensures i < |plan| && succeeds(made + plan[..i], plan[i])
    decreases i
  {
    assert plan != [] && succeeds(made, plan[0]);
    if i == 0 {
      assert made + plan[..0] == made;
    } else {
      RunPlanCalls(plan[1..], made + [plan[0]], succeeds, i - 1);
      PrefixAfterFirst(made, plan, i);
    }
  }

  /** The calls made before `plan[i]`, counted from after `plan[0]`. */
  lemma PrefixAfterFirst(made: seq<Action>, plan: seq<Action>, i: int)
    requires 0 < i < |plan|
    ensures made + [plan[0]] + plan[1..][..i - 1] == made + plan[..i]
    ensures plan[1..][i - 1] == plan[i]
  {
    assert plan[..i] == [plan[0]] + plan[1..][..i - 1];
  }

  /** The failed action, if any, failed after every action done before it. */
  lemma {:induction false} RunPlanStops(plan: seq<Action>, made: seq<Action>, succeeds: (seq<Action>, Action) -> bool)
    ensures var o := RunPlan(plan, made, succeeds);
      o.failed.Some? ==> !succeeds(made + o.done, o.failed.value)
  {
    if plan != [] && succeeds(made, plan[0]) {
      RunPlanStops(plan[1..], made + [plan[0]], succeeds);
      var rest := RunPlan(plan[1..], made + [plan[0]], succeeds);
      assert made + [plan[0]] + rest.done == made + ([plan[0]] + rest.done);
    } else if plan != [] {
      assert made + [] == made;
    }
  }

  lemma {:induction false} ActionsAppend(xs: seq<Tree>, ys: seq<Tree>)
    ensures Actions(xs + ys) == Actions(xs) + Actions(ys)
    decreases xs
  {
    if xs == [] {
      assert xs + ys == ys;
    } else {
      assert (xs + ys)[0] == xs[0] && (xs + ys)[1..] == xs[1..] + ys;
      ActionsAppend(xs[1..], ys);
    }
  }

  /** Running two plans one after the other is running their concatenation. */
  lemma {:induction false} RunPlanAppend(p: seq<Action>, q: seq<Action>, made: seq<Action>,
                                         succeeds: (seq<Action>, Action) -> bool)
    ensures RunPlan(p + q, made, succeeds) ==
      var first := RunPlan(p, made, succeeds);
      if first.failed.Some? then first
      else Outcome(first.done + RunPlan(q, made + first.done, succeeds).done, RunPlan(q, made + first.done, succeeds).failed)
    decreases p
  {
    if p == [] {
      assert p + q == q;
      assert made + [] == made;
    } else {
      assert (p + q)[0] == p[0] && (p + q)[1..] == p[1..] + q;
      if succeeds(made, p[0]) {
        var made' := made + [p[0]];
        var first := RunPlan(p[1..], made', succeeds);
        var rest := RunPlan(p[1..] + q, made', succeeds);
        RunPlanAppend(p[1..], q, made', succeeds);
        assert RunPlan(p, made, succeeds) == Outcome([p[0]] + first.done, first.failed);
        assert RunPlan(p + q, made, succeeds) == Outcome([p[0]] + rest.done, rest.failed);
        if first.failed.None? {
          var after := RunPlan(q, made' + first.done, succeeds);
          assert rest == Outcome(first.done + after.done, after.failed);
          assert made' + first.done == made + ([p[0]] + first.done);
          assert [p[0]] + (first.done + after.done) == ([p[0]] + first.done) + after.done;
        }
      }
    }
  }

  /**
   * The recursive walk of `generate` carries out the pre-order plan and
   * stops at its first failing action.
   */
  lemma {:induction false} GenerateRunsPlan(t: Tree, made: seq<Action>, succeeds: (seq<Action>, Action) -> bool)
    ensures Generate(t, made, succeeds) == RunPlan(Plan(t), made, succeeds)
    decreases t
  {
    var below := Actions(PreorderAll(t.children));
    ActionsAppend([t], PreorderAll(t.children));
    match ActionFor(t)
    case None =>
      GenerateAllRunsPlan(t.children, made, succeeds);
      assert Plan(t) == below;
    case Some(a) =>
      GenerateAllRunsPlan(t.children, made + [a], succeeds);
      assert Plan(t) == [a] + below;
      assert ([a] + below)[1..] == below;
  }

  lemma {:induction false} GenerateAllRunsPlan(ts: seq<Tree>, made: seq<Action>, succeeds: (seq<Action>, Action) -> bool)
    ensures GenerateAll(ts, made, succeeds) == RunPlan(Actions(PreorderAll(ts)), made, succeeds)
    decreases ts
  {
    if ts == [] {
      assert Actions(PreorderAll(ts)) == [];
    } else {
      GenerateRunsPlan(ts[0], made, succeeds);
      var first := Generate(ts[0], made, succeeds);
      GenerateAllRunsPlan(ts[1..], made + first.done, succeeds);
      ActionsAppend(Preorder(ts[0]), PreorderAll(ts[1..]));
      RunPlanAppend(Plan(ts[0]), Actions(PreorderAll(ts[1..])), made, succeeds);
    }
  }

  /**
   * `os.Mkdir` fails on a path that exists: a filesystem on which no
   * directory is made at a path that an earlier call of the run created.
   */
  ghost predicate MkdirRefusesMade(succeeds: (seq<Action>, Action) -> bool)
  {
    forall m: seq<Action>, a: Action :: a.Mkdir? && succeeds(m, a) ==> forall b :: b in m ==> b.path != a.path
  }

  /**
   * On such a filesystem, a plan that makes a directory at a path an earlier
   * action already used never runs to completion.
   */
  lemma RepeatedMkdirFails(plan: seq<Action>, made: seq<Action>, succeeds: (seq<Action>, Action) -> bool, i: int, j: int)
    requires MkdirRefusesMade(succeeds)
    requires 0 <= i < j < |plan| && plan[j].Mkdir? && plan[i].path == plan[j].path
    ensures RunPlan(plan, made, succeeds).failed.Some?
  {
    var o := RunPlan(plan, made, succeeds);
    RunPlanShape(plan, made, succeeds);
    if o.failed.None? {
      RunPlanCalls(plan, made, succeeds, j);
    }
  }

  /**
   * A named directory is made before anything below it, and in a well-named
   * tree everything below it is created inside it: the plan of such a node
   * starts with its `Mkdir` with mode 0755, and every later action's path
   * starts with the directory's path and a slash.
   */
  lemma DirectoryFirst(t: Tree)
    requires WellNamed(t) && t.fullName != []
    requires |t.baseName| > 0 && |t.children| > 0
    ensures Plan(t) != [] && Plan(t)[0] == Mkdir(t.fullName, DirPerm)
    ensures forall a :: a in Plan(t)[1..] ==> t.fullName + "/" <= a.path
  {
    var below := Actions(PreorderAll(t.children));
    ActionsAppend([t], PreorderAll(t.children));
    assert Plan(t) == [Mkdir(t.fullName, DirPerm)] + below;
    assert Plan(t)[1..] == below;
    DescendantsInside(t);
    forall a | a in below
      ensures t.fullName + "/" <= a.path
    {
      ActionsMembers(PreorderAll(t.children), a);
      var i :| 0 <= i < |PreorderAll(t.children)| && ActionFor(PreorderAll(t.children)[i]) == Some(a);
      assert PreorderAll(t.children)[i] in PreorderAll(t.children);
    }
  }

  /**
   * Every node with a non-empty base name gets exactly its one action in the
   * plan: an empty file when it has no children, a 0755 directory when it
   * has some; nodes with an empty base name get none.
   */
  lemma PlanCoversNodes(t: Tree, a: Action)
    ensures a in Plan(t) <==>
      (exists n :: n in Preorder(t) && |n.baseName| > 0 &&
         a == (if |n.children| == 0 then CreateFile(n.fullName) else Mkdir(n.fullName, DirPerm)))
  {
    var ns := Preorder(t);
    ActionsMembers(ns, a);
    if a in Plan(t) {
      var i :| 0 <= i < |ns| && ActionFor(ns[i]) == Some(a);
      assert ns[i] in ns;
    }
    if exists n :: n in ns && |n.baseName| > 0 &&
        a == (if |n.children| == 0 then CreateFile(n.fullName) else Mkdir(n.fullName, DirPerm)) {
      var n :| n in ns && |n.baseName| > 0 &&
        a == (if |n.children| == 0 then CreateFile(n.fullName) else Mkdir(n.fullName, DirPerm));
      var i :| 0 <= i < |ns| && ns[i] == n;
      assert ActionFor(ns[i]) == Some(a);
    }
  }
}
