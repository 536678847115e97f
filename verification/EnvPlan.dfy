/**
  The environment-creation plan and the shared record it fills in.

  A static check on a task tree is proved sound for every interleaving: no leaf reads a field
  that is still empty, and no two goroutines are ever about to make conflicting accesses.
*/
module EnvPlan {
  import opened EnvState
  import opened Tasks
  import opened Wrappers

  // ---------------------------------------------------------------- the static check

  function WritesOf(prog: seq<Access>): set<Field> { set a | a in prog && a.Write? :: a.field }

  /** The fields that are written once the task has succeeded. */
  function Writes(t: Task): set<Field>
    decreases t
  {
    match t
    case Leaf(prog) => WritesOf(prog)
    case Sequential(subs) => WritesAll(subs)
    case Concurrent(subs) => WritesAll(subs)
  }

  function WritesAll(ts: seq<Task>): set<Field>
    decreases ts
  {
    if ts == [] then {} else WritesAll(ts[..|ts| - 1]) + Writes(ts[|ts| - 1])
  }

  /** Every access that some leaf of the task may make. */
  function Accesses(t: Task): set<Access>
    decreases t
  {
    match t
    case Leaf(prog) => set a | a in prog
    case Sequential(subs) => AccessesAll(subs)
    case Concurrent(subs) => AccessesAll(subs)
  }

  function AccessesAll(ts: seq<Task>): set<Access>
    decreases ts
  {
    if ts == [] then {} else AccessesAll(ts[..|ts| - 1]) + Accesses(ts[|ts| - 1])
  }

  /** Started with the fields of `w` filled in, no leaf of the task reads an empty field. */
  predicate Safe(t: Task, w: set<Field>)
    decreases t
  {
    match t
    case Leaf(prog) =>
      forall k | 0 <= k < |prog| :: prog[k].Read? ==> prog[k].field in w + WritesOf(prog[..k])
    case Sequential(subs) => forall i | 0 <= i < |subs| :: Safe(subs[i], w + WritesAll(subs[..i]))
    case Concurrent(subs) => forall i | 0 <= i < |subs| :: Safe(subs[i], w)
  }

  /** Siblings that run side by side never touch a field that one of them writes. */
  ghost predicate RaceFree(t: Task)
    decreases t
  {
    match t
    case Leaf(_) => true
    case Sequential(subs) => forall i | 0 <= i < |subs| :: RaceFree(subs[i])
    case Concurrent(subs) =>
      && (forall i | 0 <= i < |subs| :: RaceFree(subs[i]))
      && forall i, j, a, b | 0 <= i < |subs| && 0 <= j < |subs| && i != j
           && a in Accesses(subs[i]) && b in Accesses(subs[j]) :: !Conflict(a, b)
  }

  // ---------------------------------------------------------------- the dynamic side

  /** The tree of goroutines together with the fields of the record that are filled in. */
  datatype Config = Config(root: Node, store: set<Field>)

  function StoreAfter(store: set<Field>, a: Option<Access>): set<Field> {
    if a.Some? && a.value.Write? then store + {a.value.field} else store
  }

  function NextConfig(c: Config, s: Step): Option<Config> {
    match Next(c.root, s)
    case None => None
    case Some(m) => Some(Config(m, StoreAfter(c.store, Performs(c.root, s))))
  }

  function RunConfig(c: Config, steps: seq<Step>): Option<Config> {
    if steps == [] then Some(c)
    else
      match RunConfig(c, steps[..|steps| - 1])
      case None => None
      case Some(d) => NextConfig(d, steps[|steps| - 1])
  }

  /** What has been written is in the store, at every node of the tree. */
  predicate Covered(n: Node, w: set<Field>, store: set<Field>)
    requires !n.task.Leaf? ==> |n.kids| == |n.task.subs|
    decreases n
  {
    && (n.proc.Started() ==> w <= store)
    && match n.task
       case Leaf(prog) =>
         && (n.proc.Active? ==> WritesOf(if n.proc.k <= |prog| then prog[..n.proc.k] else prog) <= store)
         && (n.Is(Nil) ==> WritesOf(prog) <= store)
       case Sequential(subs) =>
         forall i | 0 <= i < |subs| :: Shape(n.kids[i]) && Covered(n.kids[i], w + WritesAll(subs[..i]), store)
       case Concurrent(subs) =>
         forall i | 0 <= i < |subs| :: Shape(n.kids[i]) && Covered(n.kids[i], w, store)
  }

  function KidBase(t: Task, i: nat, w: set<Field>): set<Field>
    requires !t.Leaf? && i < |t.subs|
  {
    if t.Sequential? then w + WritesAll(t.subs[..i]) else w
  }

  lemma {:induction false} WritesAllBound(ts: seq<Task>, bound: set<Field>)
    requires forall i | 0 <= i < |ts| :: Writes(ts[i]) <= bound
    ensures WritesAll(ts) <= bound
  {
    if ts != [] { WritesAllBound(ts[..|ts| - 1], bound); }
  }

  lemma {:induction false} CoveredGrows(n: Node, w: set<Field>, store: set<Field>, more: set<Field>)
    requires Shape(n) && Covered(n, w, store) && store <= more
    ensures Covered(n, w, more)
    decreases n
  {
    if !n.task.Leaf? {
      forall i | 0 <= i < |n.kids| ensures Covered(n.kids[i], KidBase(n.task, i, w), more) {
        CoveredGrows(n.kids[i], KidBase(n.task, i, w), store, more);
      }
    }
  }

  /** A task that returned nil has made all its writes. */
  lemma {:induction false} WritesDone(n: Node, w: set<Field>, store: set<Field>)
    requires Inv(n) && Covered(n, w, store) && n.Is(Nil)
    ensures Writes(n.task) <= store
    decreases n
  {
    if !n.task.Leaf? {
      forall i | 0 <= i < |n.kids| ensures Writes(n.task.subs[i]) <= store {
        AllKidsNil(n, i);
        WritesDone(n.kids[i], KidBase(n.task, i, w), store);
      }
      WritesAllBound(n.task.subs, store);
    }
  }

  lemma {:induction false} BootCovered(t: Task, w: set<Field>, store: set<Field>)
    ensures Shape(Boot(t)) || !WellFormed(t)
    ensures WellFormed(t) ==> Covered(Boot(t), w, store)
    decreases t
  {
    if !t.Leaf? && WellFormed(t) {
      assert Boot(t).kids == BootAll(t.subs);
      forall i | 0 <= i < |t.subs|
        ensures Shape(Boot(t.subs[i])) && Boot(t.subs[i]).task == t.subs[i]
        ensures Covered(Boot(t.subs[i]), KidBase(t, i, w), store)
      {
        BootCovered(t.subs[i], KidBase(t, i, w), store);
        BootInv(t.subs[i]);
      }
    }
  }

  lemma SpawnCovered(n: Node, w: set<Field>, store: set<Field>)
    requires Shape(n) && Covered(n, w, store) && w <= store
    ensures Covered(n.(proc := Spawned), w, store)
  {
  }

  /** Replacing one subtask by a covered one keeps the parent covered. */
  lemma KidCovered(n: Node, m: Node, i: nat, c: Node, w: set<Field>, store: set<Field>)
    requires Shape(n) && Covered(n, w, store) && !n.task.Leaf? && i < |n.kids|
    requires m.task == n.task && m.kids == n.kids[i := c] && (m.proc.Started() ==> n.proc.Started())
    requires Shape(c) && Covered(c, KidBase(n.task, i, w), store)
    ensures Covered(m, w, store)
  {
    forall j | 0 <= j < |n.kids| ensures Shape(m.kids[j]) && Covered(m.kids[j], KidBase(n.task, j, w), store) {
    }
  }

  lemma KidFacts(n: Node, i: nat, w: set<Field>, store: set<Field>)
    requires Inv(n) && Covered(n, w, store) && i < |n.kids|
    ensures LocalInv(n) && !n.task.Leaf?
    ensures Inv(n.kids[i]) && n.kids[i].task == n.task.subs[i] && Covered(n.kids[i], KidBase(n.task, i, w), store)
  {
  }

  lemma SequentialNil(n: Node, i: nat, j: nat)
    requires LocalInv(n) && n.task.Sequential? && j <= i < |n.kids| && n.kids[i].Is(Nil)
    ensures n.kids[j].Is(Nil)
  {
    if j < i { SequentialOrder(n, j, i); }
  }

  lemma StageDone(n: Node, i: nat, j: nat, w: set<Field>, store: set<Field>)
    requires Inv(n) && Covered(n, w, store) && n.task.Sequential? && j <= i < |n.kids| && n.kids[i].Is(Nil)
    ensures Writes(n.task.subs[j]) <= store
  {
    KidFacts(n, j, w, store);
    SequentialNil(n, i, j);
    WritesDone(n.kids[j], KidBase(n.task, j, w), store);
  }

  /** When subtask i + 1 is spawned, everything its predecessors write is in the store. */
  lemma PassOnBase(n: Node, i: nat, w: set<Field>, store: set<Field>)
    requires Inv(n) && Covered(n, w, store)
    requires n.task.Sequential? && i + 1 < |n.kids| && n.lis[i] == Called(Nil)
    ensures KidBase(n.task, i + 1, w) <= store
  {
    forall j | 0 <= j <= i ensures Writes(n.task.subs[j]) <= store {
      StageDone(n, i, j, w, store);
    }
    WritesAllBound(n.task.subs[..i + 1], store);
    assert n.kids[i].proc.Started();
  }

  lemma SpawnKidCovered(n: Node, m: Node, i: nat, w: set<Field>, store: set<Field>)
    requires Shape(n) && Covered(n, w, store) && !n.task.Leaf? && i < |n.kids| && KidBase(n.task, i, w) <= store
    requires m.task == n.task && m.kids == n.kids[i := n.kids[i].(proc := Spawned)]
    requires m.proc.Started() ==> n.proc.Started()
    ensures Covered(m, w, store)
  {
    SpawnCovered(n.kids[i], KidBase(n.task, i, w), store);
    KidCovered(n, m, i, n.kids[i].(proc := Spawned), w, store);
  }

  lemma PassOnCovered(n: Node, i: nat, w: set<Field>, store: set<Field>)
    requires Inv(n) && Covered(n, w, store)
    requires n.task.Sequential? && i + 1 < |n.kids| && n.lis[i] == Called(Nil)
    ensures Covered(Spawn(n, i + 1).(lis := n.lis[i := Ended]), w, store)
  {
    PassOnBase(n, i, w, store);
    assert Shape(n);
    SpawnKidCovered(n, Spawn(n, i + 1).(lis := n.lis[i := Ended]), i + 1, w, store);
  }

  lemma LaunchCovered(n: Node, w: set<Field>, store: set<Field>)
    requires Inv(n) && Covered(n, w, store) && Next(n, Launch).Some?
    ensures Covered(Next(n, Launch).value, w, store)
  {
    assert n.task.Sequential? ==> n.task.subs[..n.proc.k] == [];
    SpawnKidCovered(n, Next(n, Launch).value, n.proc.k, w, store);
  }

  lemma TouchCovered(n: Node, w: set<Field>, store: set<Field>)
    requires Inv(n) && Covered(n, w, store) && Next(n, Touch).Some?
    ensures Covered(Next(n, Touch).value, w, StoreAfter(store, Performs(n, Touch)))
  {
    var prog, k := n.task.prog, n.proc.k;
    assert prog[..k + 1] == prog[..k] + [prog[k]];
  }

  /** Steps that neither touch the record nor move a subtask. */
  lemma OwnCovered(n: Node, s: Step, w: set<Field>, store: set<Field>)
    requires Inv(n) && Covered(n, w, store) && Next(n, s).Some?
    requires !s.Sub? && !s.Launch? && !s.Touch?
    requires s.RunListener? ==> Next(n, s).value.kids == n.kids
    ensures Covered(Next(n, s).value, w, store)
  {
    var m := Next(n, s).value;
    assert m.kids == n.kids && m.task == n.task;
    if s.Succeed? { assert n.task.prog[..n.proc.k] == n.task.prog; }
  }

  lemma SubCovered(n: Node, i: nat, s: Step, c: Node, w: set<Field>, store: set<Field>)
    requires Shape(n) && Covered(n, w, store) && i < |n.kids|
    requires Next(n, Sub(i, s)) != None && Next(n.kids[i], s) == Some(c)
    requires Shape(c) && Covered(c, KidBase(n.task, i, w), StoreAfter(store, Performs(n.kids[i], s)))
    ensures Covered(Next(n, Sub(i, s)).value, w, StoreAfter(store, Performs(n, Sub(i, s))))
  {
    var more := StoreAfter(store, Performs(n, Sub(i, s)));
    CoveredGrows(n, w, store, more);
    KidCovered(n, Next(n, Sub(i, s)).value, i, c, w, more);
  }

  lemma StepShape(n: Node, s: Step)
    requires Inv(n) && Next(n, s).Some?
    ensures Shape(Next(n, s).value)
  {
    StepInv(n, s);
  }

  lemma ListenerCovered(n: Node, i: nat, w: set<Field>, store: set<Field>)
    requires Inv(n) && Covered(n, w, store) && Next(n, RunListener(i)).Some?
    ensures Covered(Next(n, RunListener(i)).value, w, store)
  {
    if n.task.Sequential? && i + 1 < |n.kids| && n.lis[i].err == Nil {
      PassOnCovered(n, i, w, store);
    } else {
      OwnCovered(n, RunListener(i), w, store);
    }
  }

  lemma NodeStepCovered(n: Node, s: Step, w: set<Field>, store: set<Field>)
    requires Inv(n) && Covered(n, w, store) && Next(n, s).Some? && !s.Sub?
    ensures Shape(Next(n, s).value) && Covered(Next(n, s).value, w, StoreAfter(store, Performs(n, s)))
  {
    hide Inv, Covered;
    StepShape(n, s);
    match s
    case Touch => TouchCovered(n, w, store);
    case Launch => LaunchCovered(n, w, store);
    case RunListener(i) => ListenerCovered(n, i, w, store);
    case _ => OwnCovered(n, s, w, store);
  }

  /** Every step of every goroutine keeps the record covered. */
  lemma {:induction false} StepCovered(n: Node, s: Step, w: set<Field>, store: set<Field>)
    requires Inv(n) && Covered(n, w, store) && Next(n, s).Some?
    ensures Shape(Next(n, s).value) && Covered(Next(n, s).value, w, StoreAfter(store, Performs(n, s)))
    decreases s
  {
    if s.Sub? {
      StepShape(n, s);
      KidFacts(n, s.i, w, store);
      StepCovered(n.kids[s.i], s.step, KidBase(n.task, s.i, w), store);
      SubCovered(n, s.i, s.step, Next(n.kids[s.i], s.step).value, w, store);
    } else {
      NodeStepCovered(n, s, w, store);
    }
  }

  /** A step that reads a field finds it filled in. */
  lemma {:induction false} ReadsFilled(n: Node, s: Step, w: set<Field>, store: set<Field>)
    requires Inv(n) && Covered(n, w, store) && Safe(n.task, w)
    requires Performs(n, s).Some? && Performs(n, s).value.Read?
    ensures Performs(n, s).value.field in store
    decreases s
  {
    match s
    case Touch =>
    case Sub(i, s') => ReadsFilled(n.kids[i], s', KidBase(n.task, i, w), store);
  }

  /** A task whose leaves have all returned nil makes no further access. */
  lemma {:induction false} NilIsDone(n: Node, s: Step)
    requires Inv(n) && LeavesNil(n)
    ensures Performs(n, s).None?
    decreases s
  {
    match s
    case Sub(i, s') => if i < |n.kids| { NilIsDone(n.kids[i], s'); }
    case _ =>
  }

  lemma {:induction false} AccessesIncluded(ts: seq<Task>, i: nat)
    requires i < |ts|
    ensures Accesses(ts[i]) <= AccessesAll(ts)
  {
    if i < |ts| - 1 { AccessesIncluded(ts[..|ts| - 1], i); }
  }

  lemma {:induction false} PerformsListed(n: Node, s: Step)
    requires Inv(n) && Performs(n, s).Some?
    ensures Performs(n, s).value in Accesses(n.task) && n.proc.Started()
    decreases s
  {
    match s
    case Touch =>
    case Sub(i, s') =>
      PerformsListed(n.kids[i], s');
      AccessesIncluded(n.task.subs, i);
  }

  /** No two goroutines are ever both about to touch a field that one of them writes. */
  lemma {:induction false} NoRace(n: Node, s: Step, z: Step)
    requires Inv(n) && RaceFree(n.task) && s != z
    requires Performs(n, s).Some? && Performs(n, z).Some?
    ensures !Conflict(Performs(n, s).value, Performs(n, z).value)
    decreases s
  {
    var Sub(i, s') := s;
    var Sub(j, z') := z;
    if i == j {
      NoRace(n.kids[i], s', z');
    } else {
      PerformsListed(n.kids[i], s');
      PerformsListed(n.kids[j], z');
      if n.task.Sequential? {
        if i < j { SequentialGap(n, i, j, s'); } else { SequentialGap(n, j, i, z'); }
      }
    }
  }

  /** In a sequential task nothing before a started subtask still runs. */
  lemma SequentialGap(n: Node, i: nat, j: nat, s: Step)
    requires Inv(n) && n.task.Sequential? && i < j < |n.kids| && n.kids[j].proc.Started()
    ensures Performs(n.kids[i], s).None?
  {
    SequentialOrder(n, i, j);
    Outcome(n.kids[i]);
    NilIsDone(n.kids[i], s);
  }

  lemma {:induction false} RunCovered(t: Task, steps: seq<Step>)
    requires WellFormed(t) && RunConfig(Config(Launched(t), {}), steps).Some?
    ensures
      var c := RunConfig(Config(Launched(t), {}), steps).value;
      Inv(c.root) && c.root.task == t && Covered(c.root, {}, c.store)
  {
    if steps == [] {
      LaunchedInv(t);
      BootInv(t);
      BootCovered(t, {}, {});
      SpawnCovered(Boot(t), {}, {});
    } else {
      var prefix := steps[..|steps| - 1];
      RunCovered(t, prefix);
      var c := RunConfig(Config(Launched(t), {}), prefix).value;
      StepInv(c.root, steps[|steps| - 1]);
      StepMoves(c.root, steps[|steps| - 1]);
      StepCovered(c.root, steps[|steps| - 1], {}, c.store);
    }
  }

  // ---------------------------------------------------------------- the plan

  const CREATE_CONFIG_REPO := Leaf([Write(SsAdminKeys)])
  const CREATE_GIT_CLIENT := Leaf([Read(SsAdminKeys), Write(SsClient)])
  const INIT_CONFIG_REPO := Leaf([
    Write(FluxUserName), Read(FluxUserName), Write(Keys), Read(SsClient), Read(SsClient),
    Read(SsClient), Read(FluxUserName), Read(SsClient), Read(FluxUserName)])
  const ADD_NEW_ENV := Leaf([Read(SsClient), Read(SsClient), Read(Keys), Read(Keys)])
  const CREATE_REPO_CLIENT := Leaf([Read(SsClient), Write(AppManager), Write(AppsRepo)])
  const USE_CLIENT := Leaf([Read(SsClient)])
  const GIT_SERVER := Sequential([CREATE_CONFIG_REPO, CREATE_GIT_CLIENT])
  const ACTIVATE_ENV := Sequential([ADD_NEW_ENV])
  const INITIAL_COMMIT := Sequential([CREATE_REPO_CLIENT, USE_CLIENT, USE_CLIENT])
  const SETUP_CONFIG_REPO := Sequential([GIT_SERVER, INIT_CONFIG_REPO, ACTIVATE_ENV, INITIAL_COMMIT])

  const INSTALL := Leaf([Read(AppsRepo), Read(AppManager)])
  const WAIT := Leaf([])
  const SETUP_ZONE := Sequential([Leaf([Read(AppsRepo), Read(AppManager), Read(AppsRepo)]), WAIT])

  const INSTALL_WITH_CLIENT := Leaf([
    Read(SsClient), Read(SsClient), Read(AppsRepo), Read(AppManager), Read(SsClient)])
  const SETUP_NETWORK := Leaf([
    Read(AppsRepo), Read(AppManager), Read(AppManager), Read(AppManager), Read(SsClient), Read(SsClient),
    Read(AppsRepo), Read(AppManager)])
  const SETUP_CERTIFICATE_ISSUERS := Sequential([INSTALL, INSTALL])
  const SETUP_SERVICE := Sequential([INSTALL, WAIT])
  const SETUP_SERVICE_WITH_CLIENT := Sequential([INSTALL_WITH_CLIENT, WAIT])
  /** Networks, certificate issuers, authentication, memberships, headscale, welcome, app store, launcher. */
  const SETUP_INFRA := Concurrent([
    SETUP_NETWORK, SETUP_CERTIFICATE_ISSUERS, SETUP_SERVICE, SETUP_SERVICE, SETUP_SERVICE,
    SETUP_SERVICE_WITH_CLIENT, INSTALL_WITH_CLIENT, SETUP_SERVICE_WITH_CLIENT])

  const CREATE_ENV := Sequential([SETUP_CONFIG_REPO, SETUP_ZONE, SETUP_INFRA])

  /** The stages run in order, each safe on what the earlier ones wrote. */
  ghost predicate Chain(ts: seq<Task>, w: set<Field>) {
    ts == [] || (Safe(ts[0], w) && RaceFree(ts[0]) && Chain(ts[1..], w + Writes(ts[0])))
  }

  lemma {:induction false} WritesAllHead(ts: seq<Task>)
    requires ts != []
    ensures WritesAll(ts) == Writes(ts[0]) + WritesAll(ts[1..])
  {
    if |ts| > 1 {
      WritesAllHead(ts[..|ts| - 1]);
      assert ts[..|ts| - 1][1..] == ts[1..][..|ts| - 2];
    }
  }

  lemma {:induction false} ChainStage(ts: seq<Task>, w: set<Field>, i: nat)
    requires Chain(ts, w) && i < |ts|
    ensures Safe(ts[i], w + WritesAll(ts[..i])) && RaceFree(ts[i])
    decreases i
  {
    if i == 0 {
      assert w + WritesAll(ts[..0]) == w;
    } else {
      ChainStage(ts[1..], w + Writes(ts[0]), i - 1);
      WritesAllHead(ts[..i]);
      assert ts[..i][1..] == ts[1..][..i - 1];
      assert w + WritesAll(ts[..i]) == w + Writes(ts[0]) + WritesAll(ts[1..][..i - 1]);
    }
  }

  lemma ChainSafe(ts: seq<Task>, w: set<Field>)
    requires Chain(ts, w)
    ensures Safe(Sequential(ts), w) && RaceFree(Sequential(ts))
  {
    forall i | 0 <= i < |ts| ensures Safe(ts[i], w + WritesAll(ts[..i])) && RaceFree(ts[i]) {
      ChainStage(ts, w, i);
    }
  }

  lemma ChainStep(t: Task, ts: seq<Task>, w: set<Field>)
    requires Safe(t, w) && RaceFree(t) && Chain(ts, w + Writes(t))
    ensures Chain([t] + ts, w) && WritesAll([t] + ts) == Writes(t) + WritesAll(ts)
  {
    assert ([t] + ts)[1..] == ts;
    WritesAllHead([t] + ts);
  }

  lemma {:induction false} ReadOnlyAll(ts: seq<Task>, w: set<Field>)
    requires forall i | 0 <= i < |ts| :: ReadOnly(ts[i], w)
    ensures WritesAll(ts) == {} && forall a | a in AccessesAll(ts) :: a.Read?
    ensures forall i | 0 <= i <= |ts| :: WritesAll(ts[..i]) == {}
  {
    if ts != [] {
      var init := ts[..|ts| - 1];
      ReadOnlyAll(init, w);
      assert ReadOnly(ts[|ts| - 1], w);
      forall i | 0 <= i <= |ts| ensures WritesAll(ts[..i]) == {} {
        assert if i < |ts| then ts[..i] == init[..i] else ts[..i] == ts;
      }
    }
  }

  /** The task writes nothing and is safe and race free on a store that covers w. */
  ghost predicate ReadOnly(t: Task, w: set<Field>) {
    Safe(t, w) && RaceFree(t) && Writes(t) == {} && forall a | a in Accesses(t) :: a.Read?
  }

  lemma ReadOnlyParent(ts: seq<Task>, w: set<Field>)
    requires forall i | 0 <= i < |ts| :: ReadOnly(ts[i], w)
    ensures ReadOnly(Sequential(ts), w) && ReadOnly(Concurrent(ts), w)
  {
    ReadOnlyAll(ts, w);
    forall i | 0 <= i < |ts| ensures Safe(ts[i], w + WritesAll(ts[..i])) {
      assert ReadOnly(ts[i], w);
      assert w + WritesAll(ts[..i]) == w;
    }
    forall i, j, a, b | 0 <= i < |ts| && 0 <= j < |ts| && i != j && a in Accesses(ts[i]) && b in Accesses(ts[j])
      ensures !Conflict(a, b)
    {
      assert ReadOnly(ts[i], w) && ReadOnly(ts[j], w);
    }
  }

  const ALL_FIELDS := {SsAdminKeys, SsClient, FluxUserName, Keys, AppManager, AppsRepo}

  lemma ReadOnlyLeaf(prog: seq<Access>)
    requires forall k | 0 <= k < |prog| :: prog[k].Read?
    ensures ReadOnly(Leaf(prog), ALL_FIELDS)
  {
    forall k | 0 <= k < |prog| ensures prog[k].field in ALL_FIELDS {
      match prog[k].field {
        case SsAdminKeys => case SsClient => case FluxUserName => case Keys => case AppManager => case AppsRepo =>
      }
    }
  }

  predicate FitsInfra(t: Task) {
    t == SETUP_NETWORK || t == SETUP_CERTIFICATE_ISSUERS || t == SETUP_SERVICE
    || t == SETUP_SERVICE_WITH_CLIENT || t == INSTALL_WITH_CLIENT
  }

  lemma InfraTaskReadOnly(t: Task)
    requires FitsInfra(t)
    ensures WellFormed(t) && ReadOnly(t, ALL_FIELDS)
  {
    if t.Leaf? {
      ReadOnlyLeaf(t.prog);
    } else {
      ReadOnlyLeaf(t.subs[0].prog);
      ReadOnlyLeaf(t.subs[1].prog);
      ReadOnlyParent(t.subs, ALL_FIELDS);
    }
  }

  /** The concurrent stage reads fields that are all filled in and writes none of them. */
  lemma SetupInfraReadOnly()
    ensures WellFormed(SETUP_INFRA) && ReadOnly(SETUP_INFRA, ALL_FIELDS)
  {
    var subs := SETUP_INFRA.subs;
    forall i | 0 <= i < |subs| ensures WellFormed(subs[i]) && ReadOnly(subs[i], ALL_FIELDS) {
      assert FitsInfra(subs[i]);
      InfraTaskReadOnly(subs[i]);
    }
    ReadOnlyParent(subs, ALL_FIELDS);
  }

  lemma SetupZoneReadOnly()
    ensures WellFormed(SETUP_ZONE) && ReadOnly(SETUP_ZONE, ALL_FIELDS)
  {
    ReadOnlyLeaf(SETUP_ZONE.subs[0].prog);
    ReadOnlyLeaf(WAIT.prog);
    ReadOnlyParent(SETUP_ZONE.subs, ALL_FIELDS);
  }

  lemma LeafSafe(prog: seq<Access>, w: set<Field>)
    requires forall k | 0 <= k < |prog| && prog[k].Read? ::
      prog[k].field in w || exists j | 0 <= j < k :: prog[j] == Write(prog[k].field)
    ensures Safe(Leaf(prog), w)
  {
    forall k | 0 <= k < |prog| && prog[k].Read? ensures prog[k].field in w + WritesOf(prog[..k]) {
      if prog[k].field !in w {
        var j :| 0 <= j < k && prog[j] == Write(prog[k].field);
        assert prog[j] in prog[..k];
      }
    }
  }

  lemma TwoStages(a: Task, b: Task, w: set<Field>)
    requires Safe(a, w) && RaceFree(a) && Safe(b, w + Writes(a)) && RaceFree(b)
    ensures Chain([a, b], w) && WritesAll([a, b]) == Writes(a) + Writes(b)
  {
    ChainStep(b, [], w + Writes(a));
    assert [b] + [] == [b];
    ChainStep(a, [b], w);
    assert [a] + [b] == [a, b];
  }

  lemma ThreeStages(a: Task, b: Task, c: Task, w: set<Field>)
    requires Safe(a, w) && RaceFree(a) && Safe(b, w + Writes(a)) && RaceFree(b)
    requires Safe(c, w + Writes(a) + Writes(b)) && RaceFree(c)
    ensures Chain([a, b, c], w) && WritesAll([a, b, c]) == Writes(a) + Writes(b) + Writes(c)
  {
    TwoStages(b, c, w + Writes(a));
    ChainStep(a, [b, c], w);
    assert [a] + [b, c] == [a, b, c];
  }

  lemma FourStages(a: Task, b: Task, c: Task, d: Task, w: set<Field>)
    requires Safe(a, w) && RaceFree(a) && Safe(b, w + Writes(a)) && RaceFree(b)
    requires Safe(c, w + Writes(a) + Writes(b)) && RaceFree(c)
    requires Safe(d, w + Writes(a) + Writes(b) + Writes(c)) && RaceFree(d)
    ensures Chain([a, b, c, d], w) && WritesAll([a, b, c, d]) == Writes(a) + Writes(b) + Writes(c) + Writes(d)
  {
    ThreeStages(b, c, d, w + Writes(a));
    ChainStep(a, [b, c, d], w);
    assert [a] + [b, c, d] == [a, b, c, d];
  }

  lemma GitServerSafe()
    ensures Safe(GIT_SERVER, {}) && RaceFree(GIT_SERVER) && Writes(GIT_SERVER) == {SsAdminKeys, SsClient}
  {
    TwoStages(CREATE_CONFIG_REPO, CREATE_GIT_CLIENT, {});
    ChainSafe(GIT_SERVER.subs, {});
  }

  lemma InitConfigRepoSafe()
    ensures Safe(INIT_CONFIG_REPO, {SsAdminKeys, SsClient}) && Writes(INIT_CONFIG_REPO) == {FluxUserName, Keys}
  {
    assert INIT_CONFIG_REPO.prog[0] == Write(FluxUserName);
    LeafSafe(INIT_CONFIG_REPO.prog, {SsAdminKeys, SsClient});
  }

  lemma ActivateEnvSafe()
    ensures Safe(ACTIVATE_ENV, {SsAdminKeys, SsClient, FluxUserName, Keys}) && RaceFree(ACTIVATE_ENV)
    ensures Writes(ACTIVATE_ENV) == {}
  {
    ChainStep(ADD_NEW_ENV, [], {SsAdminKeys, SsClient, FluxUserName, Keys});
    ChainSafe(ACTIVATE_ENV.subs, {SsAdminKeys, SsClient, FluxUserName, Keys});
  }

  lemma InitialCommitSafe()
    ensures Safe(INITIAL_COMMIT, {SsAdminKeys, SsClient, FluxUserName, Keys}) && RaceFree(INITIAL_COMMIT)
    ensures Writes(INITIAL_COMMIT) == {AppManager, AppsRepo}
  {
    assert Writes(CREATE_REPO_CLIENT) == {AppManager, AppsRepo} && Writes(USE_CLIENT) == {};
    ThreeStages(CREATE_REPO_CLIENT, USE_CLIENT, USE_CLIENT, {SsAdminKeys, SsClient, FluxUserName, Keys});
    ChainSafe(INITIAL_COMMIT.subs, {SsAdminKeys, SsClient, FluxUserName, Keys});
  }

  lemma SetupConfigRepoSafe()
    ensures Safe(SETUP_CONFIG_REPO, {}) && RaceFree(SETUP_CONFIG_REPO) && Writes(SETUP_CONFIG_REPO) == ALL_FIELDS
  {
    var w1, w2 := {SsAdminKeys, SsClient}, {SsAdminKeys, SsClient, FluxUserName, Keys};
    GitServerSafe();
    InitConfigRepoSafe();
    ActivateEnvSafe();
    InitialCommitSafe();
    assert w1 + {FluxUserName, Keys} == w2 && w2 + {} == w2 && {} + w1 == w1;
    FourStages(GIT_SERVER, INIT_CONFIG_REPO, ACTIVATE_ENV, INITIAL_COMMIT, {});
    ChainSafe(SETUP_CONFIG_REPO.subs, {});
  }

  lemma CreateEnvSafe()
    ensures Safe(CREATE_ENV, {}) && RaceFree(CREATE_ENV)
  {
    SetupConfigRepoSafe();
    SetupZoneReadOnly();
    SetupInfraReadOnly();
    assert {} + ALL_FIELDS == ALL_FIELDS && ALL_FIELDS + {} == ALL_FIELDS;
    ThreeStages(SETUP_CONFIG_REPO, SETUP_ZONE, SETUP_INFRA, {});
    ChainSafe(CREATE_ENV.subs, {});
  }

  lemma CreateEnvWellFormed()
    ensures WellFormed(CREATE_ENV)
  {
    SetupInfraReadOnly();
    assert WellFormed(SETUP_ZONE) && WellFormed(SETUP_CONFIG_REPO);
  }

  /**
    The plan theorem. In every interleaving of the environment-creation plan, a goroutine that is
    about to read a field of the record finds it written, and no two goroutines are about to make
    conflicting accesses.
  */
  lemma PlanIsSafe(steps: seq<Step>, s: Step, z: Step)
    requires RunConfig(Config(Launched(CREATE_ENV), {}), steps).Some?
    ensures
      var c := RunConfig(Config(Launched(CREATE_ENV), {}), steps).value;
      && (Performs(c.root, s).Some? && Performs(c.root, s).value.Read? ==> Performs(c.root, s).value.field in c.store)
      && (s != z && Performs(c.root, s).Some? && Performs(c.root, z).Some? ==>
            !Conflict(Performs(c.root, s).value, Performs(c.root, z).value))
  {
    CreateEnvSafe();
    CreateEnvWellFormed();
    RunCovered(CREATE_ENV, steps);
    var c := RunConfig(Config(Launched(CREATE_ENV), {}), steps).value;
    if Performs(c.root, s).Some? {
      if Performs(c.root, s).value.Read? { ReadsFilled(c.root, s, {}, c.store); }
      if s != z && Performs(c.root, z).Some? { NoRace(c.root, s, z); }
    }
  }
}
