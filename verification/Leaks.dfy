/**
  Exactly which task trees can leave a goroutine blocked for ever.

  A concurrent task that returns at an error stops receiving, so the done-listeners that have not
  delivered yet block in their sends. Whether that can happen is decided by the shape of the tree.
*/
module Leaks {
  import opened Tasks
  import opened EnvPlan
  import opened Wrappers

  predicate HasLeaf(t: Task) {
    t.Leaf? || exists i | 0 <= i < |t.subs| :: HasLeaf(t.subs[i])
  }

  /** Some concurrent task with two or more subtasks has a leaf below it. */
  predicate Leaky(t: Task) {
    && !t.Leaf?
    && ((t.Concurrent? && |t.subs| >= 2 && HasLeaf(t)) || exists i | 0 <= i < |t.subs| :: Leaky(t.subs[i]))
  }

  /** Some listener in the tree is blocked in its send. */
  predicate Blocked(n: Node) {
    || (exists i | 0 <= i < |n.lis| :: n.lis[i].Sending?)
    || exists i | 0 <= i < |n.kids| :: Blocked(n.kids[i])
  }

  // ---------------------------------------------------------------- reachability

  ghost predicate Reaches(n: Node, m: Node) { exists steps :: Run(n, steps) == Some(m) }

  lemma ReachSelf(n: Node)
    ensures Reaches(n, n)
  {
    assert Run(n, []) == Some(n);
  }

  lemma {:induction false} RunConcat(n: Node, a: seq<Step>, b: seq<Step>)
    requires Run(n, a).Some?
    ensures Run(n, a + b) == Run(Run(n, a).value, b)
  {
    hide Next;
    if b == [] {
      assert a + b == a;
    } else {
      var init := b[..|b| - 1];
      assert (a + b)[..|a + b| - 1] == a + init;
      RunConcat(n, a, init);
    }
  }

  lemma ReachTrans(n: Node, m: Node, k: Node)
    requires Reaches(n, m) && Reaches(m, k)
    ensures Reaches(n, k)
  {
    var a :| Run(n, a) == Some(m);
    var b :| Run(m, b) == Some(k);
    RunConcat(n, a, b);
  }

  lemma ReachStep(n: Node, m: Node, s: Step, k: Node)
    requires Reaches(n, m) && Next(m, s) == Some(k)
    ensures Reaches(n, k)
  {
    hide Next;
    assert [s][..0] == [];
    assert Run(m, [s]) == Some(k);
    ReachTrans(n, m, k);
  }

  lemma {:induction false} RunTask(n: Node, steps: seq<Step>)
    requires Run(n, steps).Some?
    ensures Run(n, steps).value.task == n.task
  {
    if steps != [] {
      RunTask(n, steps[..|steps| - 1]);
      StepMoves(Run(n, steps[..|steps| - 1]).value, steps[|steps| - 1]);
    }
  }

  lemma ReachInv(n: Node, m: Node)
    requires Inv(n) && Reaches(n, m)
    ensures Inv(m) && m.task == n.task
  {
    hide Inv;
    var steps :| Run(n, steps) == Some(m);
    RunInv(n, steps);
    RunTask(n, steps);
  }

  // ---------------------------------------------------------------- running one subtask

  /** m is n after subtask i has gone on to c, and nothing else happened. */
  predicate Lifted(n: Node, i: nat, c: Node, m: Node) {
    && m.task == n.task && m.proc == n.proc && m.got == n.got
    && |m.kids| == |n.kids| == |n.lis| == |m.lis| && i < |n.kids| && m.kids[i] == c
    && (forall j | 0 <= j < |n.kids| && j != i :: m.kids[j] == n.kids[j] && m.lis[j] == n.lis[j])
    && (n.lis[i].Waiting? ==> m.lis[i].Waiting? || m.lis[i].Called?)
  }

  lemma LiftStep(n: Node, i: nat, c: Node, m: Node, s: Step, d: Node) returns (k: Node)
    requires Lifted(n, i, c, m) && Next(c, s) == Some(d)
    ensures Next(m, Sub(i, s)) == Some(k) && Lifted(n, i, d, k)
  {
    k := Next(m, Sub(i, s)).value;
  }

  lemma {:induction false} LiftRun(n: Node, i: nat, steps: seq<Step>) returns (m: Node)
    requires i < |n.kids| == |n.lis| && Run(n.kids[i], steps).Some?
    ensures Reaches(n, m) && Lifted(n, i, Run(n.kids[i], steps).value, m)
  {
    hide Next, Reaches;
    if steps == [] {
      m := n;
      ReachSelf(n);
    } else {
      var init, s := steps[..|steps| - 1], steps[|steps| - 1];
      var c := Run(n.kids[i], init).value;
      var k := LiftRun(n, i, init);
      m := LiftStep(n, i, c, k, s, Run(n.kids[i], steps).value);
      ReachStep(n, k, Sub(i, s), m);
    }
  }

  lemma Lift(n: Node, i: nat, c: Node) returns (m: Node)
    requires i < |n.kids| == |n.lis| && Reaches(n.kids[i], c)
    ensures Reaches(n, m) && Lifted(n, i, c, m)
  {
    var steps :| Run(n.kids[i], steps) == Some(c);
    m := LiftRun(n, i, steps);
  }

  // ---------------------------------------------------------------- running without failures

  /** No leaf function has returned an error. */
  predicate Clean(n: Node) {
    if n.task.Leaf? then n.proc.Ret() ==> n.proc.err == Nil else forall i | 0 <= i < |n.kids| :: Clean(n.kids[i])
  }

  lemma {:induction false} BootClean(t: Task)
    ensures Clean(Boot(t)) && Clean(Launched(t))
    decreases t
  {
    if !t.Leaf? {
      assert Boot(t).kids == BootAll(t.subs);
      forall i | 0 <= i < |t.subs| ensures Clean(Boot(t).kids[i]) {
        BootClean(t.subs[i]);
      }
    }
  }

  lemma SpawnClean(n: Node, i: nat)
    requires i < |n.kids| && Clean(n.kids[i])
    ensures Clean(n.kids[i].(proc := Spawned))
  {
  }

  lemma {:induction false} HarmlessClean(n: Node, s: Step)
    requires Clean(n) && Harmless(s) && Next(n, s).Some?
    ensures Clean(Next(n, s).value)
    decreases s
  {
    if !n.task.Leaf? {
      match s
      case Launch => SpawnClean(n, n.proc.k);
      case RunListener(i) => if i + 1 < |n.kids| { SpawnClean(n, i + 1); }
      case Sub(i, s') =>
        HarmlessClean(n.kids[i], s');
      case _ =>
    } else if s.Sub? {
      assert Next(n, s).value.task == n.task;
    }
  }

  lemma {:induction false} CleanLeaves(n: Node, e: Err)
    requires Clean(n) && LeafReturned(n, e)
    ensures e == Nil
  {
    if !n.task.Leaf? {
      var i :| 0 <= i < |n.kids| && LeafReturned(n.kids[i], e);
      CleanLeaves(n.kids[i], e);
    }
  }

  /** A task without failed leaves returns nil, after all its subtasks did. */
  lemma CleanReturn(n: Node, i: nat)
    requires Inv(n) && Clean(n) && n.proc.Ret() && i < |n.kids|
    ensures n.kids[i].proc.Started()
  {
    Outcome(n);
    if n.proc.err != Nil { CleanLeaves(n, n.proc.err); }
    AllKidsNil(n, i);
  }

  lemma {:induction false} UnstartedIsBoot(n: Node)
    requires Inv(n) && n.proc.Unstarted?
    ensures n == Boot(n.task)
    decreases n
  {
    if !n.task.Leaf? {
      var b := Boot(n.task);
      assert b.kids == BootAll(n.task.subs);
      forall i | 0 <= i < |n.kids| ensures n.kids[i] == b.kids[i] && n.lis[i] == b.lis[i] {
        UnstartedIsBoot(n.kids[i]);
      }
      assert n.kids == b.kids && n.lis == b.lis;
    }
  }

  // ---------------------------------------------------------------- starting a given subtask

  /** Subtask i has just been spawned, and the parent has received nothing. */
  predicate Fresh(n: Node, i: nat) {
    i < |n.kids| == |n.lis| && n.kids[i].proc.Spawned? && n.lis[i].Waiting? && n.proc.Active? && n.got == []
  }

  /** A step that starts subtask i spawns it as it was built. */
  lemma Spawns(n: Node, s: Step, i: nat)
    requires Next(n, s).Some? && i < |n.kids| && n.kids[i].proc.Unstarted?
    requires i < |Next(n, s).value.kids| && Next(n, s).value.kids[i].proc.Started()
    ensures Next(n, s).value.kids[i] == n.kids[i].(proc := Spawned)
    ensures s.Launch? || s.RunListener?
  {
    if s.Sub? { StepMoves(n.kids[s.i], s.step); }
  }

  lemma FreshSequential(n: Node, i: nat)
    requires LocalInv(n) && n.task.Sequential? && i < |n.kids| && n.kids[i].proc.Spawned?
    ensures Fresh(n, i)
  {
    var f: nat :| SeqAt(n, f);
    assert i < f ==> PassedOn(n, i);
    assert i == f;
  }

  /** In a concurrent task, only the start function itself spawns. */
  lemma FreshParent(n: Node, s: Step)
    requires Inv(n) && Next(n, s).Some? && (s.Launch? || s.RunListener?)
    ensures
      n.task.Concurrent? && s.RunListener? ==> Next(n, s).value.kids == n.kids
  {
  }

  lemma FreshConcurrent(n: Node, s: Step, i: nat)
    requires LocalInv(n) && n.task.Concurrent? && Next(n, s).Some? && LocalInv(Next(n, s).value) && s.Launch?
    requires i < |n.kids| && Next(n, s).value.kids[i].proc.Spawned?
    ensures Fresh(Next(n, s).value, i)
  {
  }

  lemma SpawnIsFresh(n: Node, s: Step, i: nat)
    requires Inv(n) && Next(n, s).Some? && i < |n.kids| && n.kids[i].proc.Unstarted?
    requires i < |Next(n, s).value.kids| && Next(n, s).value.kids[i].proc.Started()
    ensures Fresh(Next(n, s).value, i) && Next(n, s).value.kids[i] == Launched(n.kids[i].task)
  {
    hide Inv, LocalInv, Next, Fresh;
    var m := Next(n, s).value;
    StepInv(n, s);
    InvLocal(n);
    InvLocal(m);
    StepMoves(n, s);
    Spawns(n, s, i);
    KidInv(n, i);
    UnstartedIsBoot(n.kids[i]);
    FreshParent(n, s);
    if n.task.Sequential? { FreshSequential(m, i); } else { FreshConcurrent(n, s, i); }
  }

  lemma KidInv(n: Node, i: nat)
    requires Inv(n) && i < |n.kids|
    ensures Inv(n.kids[i]) && !n.task.Leaf? && |n.kids| == |n.lis| == |n.task.subs| && n.kids[i].task == n.task.subs[i]
  {
  }

  /** Without failures, every subtask of a started task gets started. */
  lemma {:induction false} Awaken(n: Node, i: nat) returns (m: Node)
    requires Inv(n) && Clean(n) && n.proc.Started() && i < |n.kids| && n.kids[i].proc.Unstarted?
    ensures Reaches(n, m) && Inv(m) && m.task == n.task && Fresh(m, i) && m.kids[i] == Launched(n.kids[i].task)
    decreases Weight(n)
  {
    hide Next, Inv, Clean, Weight, Launched, Reaches, Fresh;
    if n.proc.Ret() { CleanReturn(n, i); }
    assert !n.proc.Finished?;
    var s := Progress(n);
    var k := Next(n, s).value;
    StepInv(n, s);
    StepWeight(n, s);
    StepMoves(n, s);
    HarmlessClean(n, s);
    KidInv(n, i);
    SameShape(n, k);
    ReachSelf(n);
    ReachStep(n, n, s, k);
    if k.kids[i].proc.Started() {
      m := k;
      SpawnIsFresh(n, s, i);
    } else {
      m := Awaken(k, i);
      ReachTrans(n, k, m);
      KidInv(k, i);
    }
  }

  lemma SameShape(n: Node, m: Node)
    requires Inv(n) && Inv(m) && n.task == m.task
    ensures |m.kids| == |n.kids| == |n.lis| == |m.lis|
  {
  }

  // ---------------------------------------------------------------- failing

  lemma {:induction false} LaunchAll(n: Node) returns (m: Node)
    requires Inv(n) && !n.task.Leaf? && n.proc.Active?
    ensures Reaches(n, m) && Inv(m) && m.proc == Active(Launches(m))
    ensures m.task == n.task && m.lis == n.lis && m.got == n.got && |m.kids| == |n.kids|
    decreases Weight(n)
  {
    ReachSelf(n);
    if n.proc.k < Launches(n) {
      var k := Next(n, Launch).value;
      StepInv(n, Launch);
      StepWeight(n, Launch);
      ReachStep(n, n, Launch, k);
      m := LaunchAll(k);
      ReachTrans(n, k, m);
    } else {
      m := n;
    }
  }

  /** A parent that has received nothing takes the error of a listener first, and returns it. */
  lemma FailNow(n: Node, i: nat, e: Err) returns (m: Node)
    requires Inv(n) && !n.task.Leaf? && n.proc == Active(Launches(n)) && n.got == []
    requires i < |n.kids| == |n.lis| && n.lis[i] == Sending(e) && e != Nil
    ensures Reaches(n, m) && m.task == n.task && m.proc == Returned(e) && |m.got| == 1 && |m.kids| == |n.kids|
  {
    hide Inv, Reaches;
    var k := n.(lis := n.lis[i := Ended], got := [e]);
    assert n.got + [e] == [e];
    assert Next(n, Receive(i)) == Some(k);
    m := k.(proc := Returned(e));
    assert Next(k, Conclude) == Some(m);
    ReachSelf(n);
    ReachStep(n, n, Receive(i), k);
    ReachStep(n, k, Conclude, m);
  }

  lemma FailVia(n: Node, i: nat) returns (m: Node)
    requires Inv(n) && n.proc.Active? && n.got == [] && i < |n.kids| == |n.lis|
    requires n.lis[i].Called? && n.lis[i].err != Nil
    ensures Reaches(n, m) && m.task == n.task && m.proc == Returned(n.lis[i].err)
    ensures |m.got| == 1 && |m.kids| == |n.kids|
  {
    KidInv(n, i);
    hide Inv, Reaches;
    var k := Offer(n, i);
    assert Next(n, RunListener(i)) == Some(k);
    StepInv(n, RunListener(i));
    ReachSelf(n);
    ReachStep(n, n, RunListener(i), k);
    var l := LaunchAll(k);
    ReachTrans(n, k, l);
    m := FailNow(l, i, n.lis[i].err);
    ReachTrans(n, l, m);
  }

  lemma LaunchedKid(t: Task, i: nat)
    requires WellFormed(t) && !t.Leaf? && i < |t.subs|
    ensures
      var n := Launched(t);
      && Inv(n) && Clean(n) && n.task == t && n.proc.Started()
      && |n.kids| == |t.subs| && n.kids[i].proc.Unstarted? && n.kids[i].task == t.subs[i]
  {
    LaunchedInv(t);
    BootClean(t);
    assert Launched(t).kids == BootAll(t.subs);
  }

  lemma CalledBack(n: Node, i: nat, c: Node, m: Node)
    requires Fresh(n, i) && Inv(m) && Lifted(n, i, c, m) && c.proc.Told()
    ensures m.lis[i] == Called(c.proc.err)
  {
  }

  /** If subtask i can fail, so can the task, with its first message. */
  lemma FailThrough(t: Task, i: nat, c: Node) returns (m: Node)
    requires WellFormed(t) && !t.Leaf? && i < |t.subs|
    requires Reaches(Launched(t.subs[i]), c) && c.proc.Told() && c.proc.err != Nil
    ensures Reaches(Launched(t), m) && m.task == t && m.proc == Returned(c.proc.err)
    ensures |m.got| == 1 && |m.kids| == |t.subs|
  {
    hide Inv, Reaches, Launched, Clean;
    var n := Launched(t);
    LaunchedKid(t, i);
    var a := Awaken(n, i);
    var b := Lift(a, i, c);
    ReachInv(a, b);
    CalledBack(a, i, c, b);
    m := FailVia(b, i);
    ReachTrans(n, a, b);
    ReachTrans(n, b, m);
    KidInv(b, i);
  }

  lemma LeafFails(t: Task) returns (m: Node)
    requires t.Leaf?
    ensures Reaches(Launched(t), m) && m.proc == Notified(Failure(0))
  {
    var n := Launched(t);
    var a, b := n.(proc := Active(0)), n.(proc := Returned(Failure(0)));
    m := n.(proc := Notified(Failure(0)));
    ReachSelf(n);
    ReachStep(n, n, Begin, a);
    ReachStep(n, a, Fail(0), b);
    ReachStep(n, b, Notify, m);
  }

  /** Every task with a leaf below it can fail. */
  lemma {:induction false} CanFail(t: Task) returns (m: Node)
    requires WellFormed(t) && HasLeaf(t)
    ensures Reaches(Launched(t), m) && m.proc.Told() && m.proc.err != Nil
    decreases t
  {
    hide Reaches, Launched;
    if t.Leaf? {
      m := LeafFails(t);
    } else {
      var i :| 0 <= i < |t.subs| && HasLeaf(t.subs[i]);
      var c := CanFail(t.subs[i]);
      var k := FailThrough(t, i, c);
      m := k.(proc := Notified(k.proc.err));
      ReachStep(Launched(t), k, Notify, m);
    }
  }

  // ---------------------------------------------------------------- leaking

  /** Some concurrent task in the tree has returned before it received from all its subtasks. */
  predicate Doomed(n: Node) {
    || (n.task.Concurrent? && n.proc.Ret() && |n.got| < |n.kids|)
    || exists i | 0 <= i < |n.kids| :: Doomed(n.kids[i])
  }

  lemma {:induction false} CanBeDoomed(t: Task) returns (m: Node)
    requires WellFormed(t) && Leaky(t)
    ensures Reaches(Launched(t), m) && Doomed(m)
    decreases t
  {
    hide Reaches, Launched, Inv, Clean, Fresh;
    if t.Concurrent? && |t.subs| >= 2 && HasLeaf(t) {
      var i :| 0 <= i < |t.subs| && HasLeaf(t.subs[i]);
      var c := CanFail(t.subs[i]);
      m := FailThrough(t, i, c);
    } else {
      var i :| 0 <= i < |t.subs| && Leaky(t.subs[i]);
      var c := CanBeDoomed(t.subs[i]);
      LaunchedKid(t, i);
      var a := Awaken(Launched(t), i);
      SameShape(Launched(t), a);
      m := Lift(a, i, c);
      ReachTrans(Launched(t), a, m);
      assert Doomed(m.kids[i]);
    }
  }

  lemma SpawnDoomed(n: Node)
    requires Doomed(n) && n.proc.Unstarted?
    ensures Doomed(n.(proc := Spawned))
  {
    var i :| 0 <= i < |n.kids| && Doomed(n.kids[i]);
    assert n.(proc := Spawned).kids[i] == n.kids[i];
  }

  /** The subtasks after a step of the node itself: the same, or one of them spawned. */
  lemma OwnKids(n: Node, s: Step, i: nat)
    requires SpawnsFresh(n, s) && Next(n, s).Some? && !s.Sub? && i < |n.kids|
    ensures
      var m := Next(n, s).value;
      && |m.kids| == |n.kids|
      && (m.kids[i] == n.kids[i] || (n.kids[i].proc.Unstarted? && m.kids[i] == n.kids[i].(proc := Spawned)))
  {
  }

  lemma {:induction false} StepDoomed(n: Node, s: Step)
    requires Inv(n) && Doomed(n) && Next(n, s).Some?
    ensures Doomed(Next(n, s).value)
    decreases s
  {
    hide Inv;
    var m := Next(n, s).value;
    if n.task.Concurrent? && n.proc.Ret() && |n.got| < |n.kids| {
      StepMoves(n, s);
      OwnReturned(n, s);
    } else {
      var i :| 0 <= i < |n.kids| && Doomed(n.kids[i]);
      if s.Sub? {
        if s.i == i {
          KidInv(n, i);
          StepDoomed(n.kids[i], s.step);
        }
      } else {
        StepInv(n, s);
        OwnKids(n, s, i);
        if n.kids[i].proc.Unstarted? { SpawnDoomed(n.kids[i]); }
      }
      assert Doomed(m.kids[i]);
    }
  }

  lemma OwnReturned(n: Node, s: Step)
    requires n.proc.Ret() && Next(n, s).Some?
    ensures Next(n, s).value.got == n.got && |Next(n, s).value.kids| == |n.kids|
  {
  }

  /** Every state can be run until nothing moves. */
  lemma {:induction false} Drain(n: Node) returns (m: Node)
    requires Inv(n)
    ensures Reaches(n, m) && Inv(m) && Quiescent(m) && (Doomed(n) ==> Doomed(m))
    decreases Weight(n)
  {
    hide Next, Inv, Doomed, Reaches, Weight;
    ReachSelf(n);
    if s :| Next(n, s).Some? {
      var k := Next(n, s).value;
      StepInv(n, s);
      StepWeight(n, s);
      if Doomed(n) { StepDoomed(n, s); }
      ReachStep(n, n, s, k);
      m := Drain(k);
      ReachTrans(n, k, m);
    } else {
      m := n;
    }
  }

  lemma QuiescentKid(n: Node, i: nat)
    requires Inv(n) && Quiescent(n) && i < |n.kids|
    ensures Inv(n.kids[i]) && Quiescent(n.kids[i])
  {
    hide Next;
    KidInv(n, i);
    InvShape(n);
    forall s ensures Next(n.kids[i], s).None? {
      if Next(n.kids[i], s).Some? { SubEnabled(n, i, s); }
    }
  }

  lemma {:induction false} CountSome(ls: seq<Listener>)
    ensures CountSending(ls) > 0 <==> exists i | 0 <= i < |ls| :: ls[i].Sending?
  {
    if ls != [] {
      var init := ls[..|ls| - 1];
      CountSome(init);
      assert forall i | 0 <= i < |init| :: init[i] == ls[i];
    }
  }

  lemma {:induction false} DoomedIsBlocked(n: Node)
    requires Inv(n) && Quiescent(n) && Doomed(n)
    ensures Blocked(n)
    decreases n
  {
    hide Inv, Quiescent;
    if n.task.Concurrent? && n.proc.Ret() && |n.got| < |n.kids| {
      ConcurrentLeak(n);
      CountSome(n.lis);
    } else {
      var i :| 0 <= i < |n.kids| && Doomed(n.kids[i]);
      QuiescentKid(n, i);
      DoomedIsBlocked(n.kids[i]);
    }
  }

  lemma {:induction false} LeafBelow(n: Node, e: Err)
    requires Inv(n) && LeafReturned(n, e)
    ensures HasLeaf(n.task)
  {
    if !n.task.Leaf? {
      var i :| 0 <= i < |n.kids| && LeafReturned(n.kids[i], e);
      LeafBelow(n.kids[i], e);
      KidInv(n, i);
    }
  }

  /** A listener of the node itself is blocked only below a concurrent task that failed early. */
  lemma OwnBlocked(n: Node, i: nat)
    requires Inv(n) && Quiescent(n) && i < |n.lis| && n.lis[i].Sending?
    ensures n.task.Concurrent? && |n.task.subs| >= 2 && HasLeaf(n.task)
  {
    QuiescentSettled(n);
    InvLocal(n);
    assert n.proc.Finished?;
    if n.task.Sequential? {
      var f := SequentialOutcome(n);
    } else {
      ConcurrentLeak(n);
      CountSome(n.lis);
      KidInv(n, i);
      Outcome(n);
      LeafBelow(n, n.proc.err);
    }
  }

  lemma {:induction false} BlockedIsLeaky(n: Node)
    requires Inv(n) && Quiescent(n) && Blocked(n)
    ensures Leaky(n.task)
    decreases n
  {
    hide Inv, Quiescent;
    if i :| 0 <= i < |n.lis| && n.lis[i].Sending? {
      OwnBlocked(n, i);
    } else {
      var i :| 0 <= i < |n.kids| && Blocked(n.kids[i]);
      QuiescentKid(n, i);
      KidInv(n, i);
      BlockedIsLeaky(n.kids[i]);
    }
  }

  /** An interleaving of the tree that ends, with nothing able to move, in a state with a blocked listener. */
  ghost predicate LeavesBlocked(t: Task, steps: seq<Step>) {
    var m := Run(Launched(t), steps);
    m.Some? && Quiescent(m.value) && Blocked(m.value)
  }

  /**
    Some interleaving of the tree leaves a goroutine blocked for ever if and only if a concurrent task
    with two or more subtasks has a leaf below it.
  */
  lemma LeaksExactly(t: Task)
    requires WellFormed(t)
    ensures (exists steps :: LeavesBlocked(t, steps)) <==> Leaky(t)
  {
    hide Launched, Inv, Quiescent, Run;
    LaunchedInv(t);
    if steps :| LeavesBlocked(t, steps) {
      var m := Run(Launched(t), steps).value;
      Reached(t, steps);
      BlockedIsLeaky(m);
    }
    if Leaky(t) {
      var k := CanBeDoomed(t);
      ReachInv(Launched(t), k);
      var m := Drain(k);
      DoomedIsBlocked(m);
      ReachTrans(Launched(t), k, m);
      var steps :| Run(Launched(t), steps) == Some(m);
      assert LeavesBlocked(t, steps);
    }
  }

  const TWO_LEAVES := Concurrent([Leaf([]), Leaf([])])

  /** The smallest leak: two leaves, one of which fails, leave one listener blocked. */
  lemma TwoLeavesLeak() returns (steps: seq<Step>)
    ensures
      var m := Run(Launched(TWO_LEAVES), steps);
      m.Some? && Quiescent(m.value) && m.value.proc.Finished? && CountSending(m.value.lis) == 1
  {
    var t := TWO_LEAVES;
    assert HasLeaf(t.subs[0]);
    LeaksExactly(t);
    steps :| LeavesBlocked(t, steps);
    var m := Run(Launched(t), steps).value;
    Reached(t, steps);
    QuiescentSettled(m);
    ConcurrentLeak(m);
    OwnOnly(m);
    CountSome(m.lis);
    assert m.got != [];
  }

  /** Leaves have no listeners, so a blocked one is the parent's. */
  lemma OwnOnly(m: Node)
    requires Inv(m) && m.task == TWO_LEAVES && Blocked(m)
    ensures exists i | 0 <= i < |m.lis| :: m.lis[i].Sending?
  {
    hide Inv;
    forall i | 0 <= i < |m.kids| ensures !Blocked(m.kids[i]) {
      KidInv(m, i);
      InvShape(m.kids[i]);
      assert m.kids[i].lis == [] && m.kids[i].kids == [];
    }
  }

  /** The environment-creation plan leaks: some interleaving of it leaves a goroutine blocked for ever. */
  lemma PlanLeaks()
    ensures exists steps :: LeavesBlocked(CREATE_ENV, steps)
  {
    CreateEnvWellFormed();
    assert HasLeaf(SETUP_INFRA.subs[0]);
    assert Leaky(SETUP_INFRA);
    assert CREATE_ENV.subs[2] == SETUP_INFRA;
    LeaksExactly(CREATE_ENV);
  }
}
