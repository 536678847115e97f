/** What a task reports goes back, over a whole interleaving, to what its leaf functions returned. */
module Causes {
  import opened Tasks
  import opened Leaks
  import opened Wrappers

  /** The task reached by following subtask indices. */
  function NodeAt(n: Node, path: seq<nat>): Option<Node>
    decreases |path|
  {
    if path == [] then Some(n)
    else if path[0] < |n.kids| then NodeAt(n.kids[path[0]], path[1..])
    else None
  }

  /** The step of the task at the end of the path. */
  function StepAt(path: seq<nat>, s: Step): Step
    decreases |path|
  {
    if path == [] then s else Sub(path[0], StepAt(path[1..], s))
  }

  /** The step in which a leaf function returns that error, or nil. */
  function Returns(e: Err): Step {
    match e
    case Nil => Succeed
    case Failure(code) => Fail(code)
  }

  /** A leaf at the path, which has returned e. */
  predicate LeafIs(n: Node, path: seq<nat>, e: Err) {
    var m := NodeAt(n, path);
    m.Some? && m.value.task.Leaf? && m.value.Is(e)
  }

  predicate LeafAt(n: Node, path: seq<nat>) {
    var m := NodeAt(n, path);
    m.Some? && m.value.task.Leaf?
  }

  lemma OwnCause(n: Node, s: Step, e: Err)
    requires Next(n, s).Some? && n.task.Leaf?
    ensures Next(n, s).value.Is(e) <==> n.Is(e) || s == Returns(e)
  {
  }

  /** Spawning a subtask that has not started changes nothing at any leaf. */
  lemma SpawnCause(n: Node, path: seq<nat>, e: Err)
    requires n.proc.Unstarted?
    ensures LeafAt(n.(proc := Spawned), path) == LeafAt(n, path)
    ensures LeafIs(n.(proc := Spawned), path, e) == LeafIs(n, path, e)
  {
  }

  /** A step of the node itself leaves the leaves below it as they were. */
  lemma OwnBelow(n: Node, s: Step, path: seq<nat>, e: Err)
    requires Inv(n) && Next(n, s).Some? && !s.Sub? && path != []
    ensures LeafAt(Next(n, s).value, path) == LeafAt(n, path)
    ensures LeafIs(Next(n, s).value, path, e) == LeafIs(n, path, e)
  {
    hide Inv, Next;
    var m, i := Next(n, s).value, path[0];
    StepInv(n, s);
    StepMoves(n, s);
    SameShape(n, m);
    if i < |n.kids| {
      OwnKids(n, s, i);
      if n.kids[i].proc.Unstarted? { SpawnCause(n.kids[i], path[1..], e); }
    }
  }

  lemma SubKids(n: Node, s: Step, j: nat)
    requires Next(n, s).Some? && s.Sub? && j < |n.kids|
    ensures
      var m := Next(n, s).value;
      && |m.kids| == |n.kids|
      && (j != s.i ==> m.kids[j] == n.kids[j])
      && (j == s.i ==> Next(n.kids[j], s.step) == Some(m.kids[j]))
  {
  }

  /** One step: a leaf has returned e exactly if it had before, or if this is the step in which it does. */
  lemma {:induction false} StepCause(n: Node, s: Step, path: seq<nat>, e: Err)
    requires Inv(n) && Next(n, s).Some? && LeafAt(n, path)
    ensures LeafAt(Next(n, s).value, path)
    ensures LeafIs(Next(n, s).value, path, e) <==> LeafIs(n, path, e) || s == StepAt(path, Returns(e))
    decreases |path|
  {
    hide Inv, Next;
    if path == [] {
      StepMoves(n, s);
      OwnCause(n, s, e);
    } else if !s.Sub? {
      OwnBelow(n, s, path, e);
    } else {
      var i := path[0];
      SubKids(n, s, i);
      if s.i == i {
        KidInv(n, i);
        StepCause(n.kids[i], s.step, path[1..], e);
      }
    }
  }

  /** The run holds the step in which the leaf at the path returns e. */
  ghost predicate Returned(steps: seq<Step>, path: seq<nat>, e: Err) { StepAt(path, Returns(e)) in steps }

  lemma {:induction false} LaunchedLeaf(t: Task, path: seq<nat>, e: Err)
    ensures !LeafIs(Boot(t), path, e) && !LeafIs(Launched(t), path, e)
    decreases |path|
  {
    if path != [] && !t.Leaf? {
      assert Boot(t).kids == BootAll(t.subs);
      if path[0] < |t.subs| { LaunchedLeaf(t.subs[path[0]], path[1..], e); }
    }
  }

  lemma {:induction false} SameLeaves(t: Task, steps: seq<Step>, path: seq<nat>)
    requires WellFormed(t) && Run(Launched(t), steps).Some? && LeafAt(Run(Launched(t), steps).value, path)
    ensures LeafAt(Launched(t), path)
  {
    LaunchedInv(t);
    Reached(t, steps);
    SameTree(Launched(t), Run(Launched(t), steps).value, path);
  }

  /** Two states of one tree have their leaves in the same places. */
  lemma {:induction false} SameTree(n: Node, m: Node, path: seq<nat>)
    requires Inv(n) && Inv(m) && n.task == m.task
    ensures LeafAt(n, path) == LeafAt(m, path)
    decreases |path|
  {
    hide Inv;
    SameShape(n, m);
    if path != [] && path[0] < |n.kids| {
      KidInv(n, path[0]);
      KidInv(m, path[0]);
      SameTree(n.kids[path[0]], m.kids[path[0]], path[1..]);
    }
  }

  /**
    In every interleaving, the leaf at a place has returned e if and only if the interleaving holds the
    step in which that very leaf returns e.
  */
  lemma {:induction false} LeafCause(t: Task, steps: seq<Step>, path: seq<nat>, e: Err)
    requires WellFormed(t) && Run(Launched(t), steps).Some? && LeafAt(Run(Launched(t), steps).value, path)
    ensures LeafIs(Run(Launched(t), steps).value, path, e) <==> Returned(steps, path, e)
  {
    hide Next, Inv;
    if steps == [] {
      LaunchedLeaf(t, path, e);
    } else {
      var init, s := steps[..|steps| - 1], steps[|steps| - 1];
      Reached(t, init);
      Reached(t, steps);
      SameTree(Run(Launched(t), init).value, Run(Launched(t), steps).value, path);
      LeafCause(t, init, path, e);
      StepCause(Run(Launched(t), init).value, s, path, e);
      assert steps == init + [s];
    }
  }

  lemma {:induction false} LeafPath(n: Node, e: Err) returns (path: seq<nat>)
    requires LeafReturned(n, e)
    ensures LeafIs(n, path, e)
  {
    if n.task.Leaf? {
      path := [];
    } else {
      var i :| 0 <= i < |n.kids| && LeafReturned(n.kids[i], e);
      var rest := LeafPath(n.kids[i], e);
      path := [i] + rest;
      assert path[1..] == rest;
    }
  }

  /** The error with which a root fails is one that a leaf function returned in that very interleaving. */
  lemma ErrorCause(t: Task, steps: seq<Step>) returns (path: seq<nat>)
    requires WellFormed(t) && Run(Launched(t), steps).Some?
    requires
      var m := Run(Launched(t), steps).value;
      m.proc.Finished? && m.proc.err != Nil
    ensures LeafAt(Run(Launched(t), steps).value, path)
    ensures StepAt(path, Fail(Run(Launched(t), steps).value.proc.err.code)) in steps
  {
    var m := Run(Launched(t), steps).value;
    EveryVerdict(t, steps);
    path := LeafPath(m, m.proc.err);
    LeafCause(t, steps, path, m.proc.err);
  }

  /** A root that is Done saw every leaf function return nil, in a step of its own. */
  lemma SuccessCause(t: Task, steps: seq<Step>, path: seq<nat>)
    requires WellFormed(t) && Run(Launched(t), steps).Some? && LeafAt(Run(Launched(t), steps).value, path)
    requires Run(Launched(t), steps).value.proc == Finished(Nil)
    ensures StepAt(path, Succeed) in steps
  {
    var m := Run(Launched(t), steps).value;
    EveryVerdict(t, steps);
    Reached(t, steps);
    NilAt(m, path);
    LeafCause(t, steps, path, Nil);
  }

  lemma {:induction false} NilAt(n: Node, path: seq<nat>)
    requires Inv(n) && LeavesNil(n) && LeafAt(n, path)
    ensures LeafIs(n, path, Nil)
    decreases |path|
  {
    if path != [] {
      KidInv(n, path[0]);
      NilAt(n.kids[path[0]], path[1..]);
    }
  }
}
