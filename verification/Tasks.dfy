/** The shared record that the leaf functions of an environment-creation plan read and write. */
module EnvState {

  /** The components of the record that start out empty. */
  datatype Field = SsAdminKeys | SsClient | FluxUserName | Keys | AppManager | AppsRepo

  datatype Access = Read(field: Field) | Write(field: Field)

  ghost predicate Conflict(a: Access, b: Access) {
    a.field == b.field && (a.Write? || b.Write?)
  }
}

/**
  Trees of leaf, sequential and concurrent tasks, run by goroutines.

  A `Node` is one task object together with the goroutine that runs its Start
  method and the done-listener goroutines that belong to its start function.
  One `Step` is one atomic action of one goroutine, so a sequence of steps is one
  interleaving of all of them.
*/
module Tasks {
  import opened EnvState
  import opened Wrappers

  datatype Err = Nil | Failure(code: int)

  /** `prog` lists the accesses of a leaf function to the shared record, in order. */
  datatype Task =
    | Leaf(prog: seq<Access>)
    | Sequential(subs: seq<Task>)
    | Concurrent(subs: seq<Task>)

  /** The goroutine of Start. In a leaf `Active(k)` has done k accesses; in a parent it has launched k subtasks. */
  datatype Proc =
    | Unstarted
    | Spawned
    | Active(k: nat)
    | Returned(err: Err)   // the start function returned
    | Notified(err: Err)   // the done-listeners are spawned, status not yet written
    | Finished(err: Err)   // status is Done or Failed
  {
    predicate Started() { !Unstarted? }
    predicate Told() { Notified? || Finished? }
    predicate Ret() { Returned? || Told() }
  }

  /** The done-listener that a parent registered on one of its subtasks. */
  datatype Listener = Waiting | Called(err: Err) | Sending(err: Err) | Ended

  /** `got` is what the parent received on its error channel. */
  datatype Node = Node(task: Task, proc: Proc, kids: seq<Node>, lis: seq<Listener>, got: seq<Err>) {
    predicate Is(e: Err) { proc.Ret() && proc.err == e }
  }

  datatype Step =
    | Begin               // Start begins: status Running, start function called
    | Touch               // a leaf function does its next access
    | Fail(code: int)     // a leaf function returns an error
    | Succeed             // a leaf function returns nil
    | Launch              // a parent registers a listener and spawns a subtask
    | Receive(i: nat)     // a parent takes the message of listener i
    | Conclude            // the start function of a parent returns
    | Notify              // callDoneListeners spawns the listeners
    | SetStatus           // callDoneListeners writes the status
    | RunListener(i: nat) // listener i runs up to its spawn or its send
    | Sub(i: nat, step: Step)

  function Boot(t: Task): (n: Node)
    decreases t
  {
    match t
    case Leaf(_) => Node(t, Unstarted, [], [], [])
    case Sequential(subs) => Node(t, Unstarted, BootAll(subs), seq(|subs|, _ => Waiting), [])
    case Concurrent(subs) => Node(t, Unstarted, BootAll(subs), seq(|subs|, _ => Waiting), [])
  }

  function BootAll(ts: seq<Task>): (ns: seq<Node>)
    ensures |ns| == |ts| && forall i | 0 <= i < |ts| :: ns[i] == Boot(ts[i])
    decreases ts
  {
    if ts == [] then [] else BootAll(ts[..|ts| - 1]) + [Boot(ts[|ts| - 1])]
  }

  /** The state right after `go root.Start()`. */
  function Launched(t: Task): (n: Node) { Boot(t).(proc := Spawned) }

  /** The number of subtasks that a start function spawns itself. */
  function Launches(n: Node): nat {
    match n.task
    case Leaf(_) => 0
    case Sequential(_) => 1
    case Concurrent(_) => |n.kids|
  }

  /** `go subtasks[i].Start()`, whatever that subtask is doing. */
  function Spawn(n: Node, i: nat): Node
    requires i < |n.kids|
  {
    n.(kids := n.kids[i := n.kids[i].(proc := Spawned)])
  }

  /** The receive loop is over: a sequential parent receives once, a concurrent one up to the first error. */
  predicate Closed(n: Node) {
    if n.task.Concurrent? then |n.got| == |n.kids| || (n.got != [] && n.got[|n.got| - 1] != Nil)
    else n.got != []
  }

  /** One atomic action; None when it is not enabled. */
  function Next(n: Node, s: Step): Option<Node>
    decreases s
  {
    match s
    case Begin => if n.proc.Spawned? then Some(n.(proc := Active(0))) else None
    case Touch =>
      if n.task.Leaf? && n.proc.Active? && n.proc.k < |n.task.prog| then
        Some(n.(proc := Active(n.proc.k + 1)))
      else None
    case Fail(c) =>
      if n.task.Leaf? && n.proc.Active? then Some(n.(proc := Returned(Failure(c)))) else None
    case Succeed =>
      if n.task.Leaf? && n.proc.Active? && n.proc.k == |n.task.prog| then
        Some(n.(proc := Returned(Nil)))
      else None
    case Launch =>
      if !n.task.Leaf? && n.proc.Active? && n.proc.k < Launches(n) && n.proc.k < |n.kids| then
        Some(Spawn(n, n.proc.k).(proc := Active(n.proc.k + 1)))
      else None
    case Receive(i) =>
      if && !n.task.Leaf? && n.proc.Active? && n.proc.k == Launches(n) && !Closed(n)
         && i < |n.lis| && n.lis[i].Sending? then
        Some(n.(lis := n.lis[i := Ended], got := n.got + [n.lis[i].err]))
      else None
    case Conclude =>
      if !n.task.Leaf? && n.proc.Active? && n.proc.k == Launches(n) && Closed(n) then
        Some(n.(proc := Returned(if n.got == [] then Nil else n.got[|n.got| - 1])))
      else None
    case Notify => if n.proc.Returned? then Some(n.(proc := Notified(n.proc.err))) else None
    case SetStatus => if n.proc.Notified? then Some(n.(proc := Finished(n.proc.err))) else None
    case RunListener(i) =>
      if i < |n.lis| && n.lis[i].Called? then
        if n.task.Sequential? && i + 1 < |n.kids| && n.lis[i].err == Nil then
          Some(Spawn(n, i + 1).(lis := n.lis[i := Ended]))
        else
          Some(n.(lis := n.lis[i := Sending(n.lis[i].err)]))
      else None
    case Sub(i, s') =>
      if i < |n.kids| && i < |n.lis| then
        match Next(n.kids[i], s')
        case None => None
        case Some(c) =>
          var m := n.(kids := n.kids[i := c]);
          Some(if s'.Notify? && c.proc.Notified? then m.(lis := n.lis[i := Called(c.proc.err)]) else m)
      else None
  }

  /** The access to the shared record that a step performs, if any. */
  function Performs(n: Node, s: Step): Option<Access>
    decreases s
  {
    match s
    case Touch =>
      if n.task.Leaf? && n.proc.Active? && n.proc.k < |n.task.prog| then Some(n.task.prog[n.proc.k]) else None
    case Sub(i, s') => if i < |n.kids| then Performs(n.kids[i], s') else None
    case _ => None
  }

  /** Plays an interleaving. */
  function Run(n: Node, steps: seq<Step>): Option<Node> {
    if steps == [] then Some(n)
    else
      match Run(n, steps[..|steps| - 1])
      case None => None
      case Some(m) => Next(m, steps[|steps| - 1])
  }

  ghost predicate Quiescent(n: Node) { forall s :: Next(n, s).None? }

  /** What the constructors demand: a sequential task slices its list up to its last element. */
  predicate WellFormed(t: Task) {
    match t
    case Leaf(_) => true
    case Sequential(subs) => |subs| > 0 && forall i | 0 <= i < |subs| :: WellFormed(subs[i])
    case Concurrent(subs) => forall i | 0 <= i < |subs| :: WellFormed(subs[i])
  }

  // ---------------------------------------------------------------- the invariant

  predicate Shape(n: Node) {
    match n.task
    case Leaf(_) => n.kids == [] && n.lis == [] && n.got == []
    case Sequential(subs) =>
      |n.kids| == |n.lis| == |subs| > 0 && forall i | 0 <= i < |subs| :: n.kids[i].task == subs[i]
    case Concurrent(subs) => |n.kids| == |n.lis| == |subs| && forall i | 0 <= i < |subs| :: n.kids[i].task == subs[i]
  }

  /** A listener runs exactly when its subtask has called it, and carries that subtask's error. */
  predicate Links(n: Node)
    requires |n.kids| == |n.lis|
  {
    && (forall i | 0 <= i < |n.kids| :: n.lis[i].Waiting? <==> !n.kids[i].proc.Told())
    && (forall i | 0 <= i < |n.kids| ::
          n.lis[i].Called? || n.lis[i].Sending? ==> n.kids[i].Is(n.lis[i].err))
    && (n.proc.Unstarted? || n.proc.Spawned? || (n.proc.Active? && n.proc.k < Launches(n)) ==> n.got == [])
    && (n.proc.Unstarted? || n.proc.Spawned? ==> forall i | 0 <= i < |n.kids| :: n.kids[i].proc.Unstarted?)
    && (n.proc.Active? && !n.task.Leaf? ==> n.proc.k <= Launches(n))
    && (n.proc.Ret() && !n.task.Leaf? ==>
          Closed(n) && n.proc.err == if n.got == [] then Nil else n.got[|n.got| - 1])
  }

  /** Listener i of a sequential parent passed on the baton: subtask i succeeded and i + 1 was spawned. */
  predicate PassedOn(n: Node, i: nat)
    requires i < |n.kids| == |n.lis|
  {
    n.lis[i].Ended? && n.kids[i].Is(Nil)
  }

  /** Listener i of a sequential parent delivered e on the channel. */
  predicate Delivered(n: Node, i: nat, e: Err)
    requires i < |n.kids| == |n.lis|
  {
    n.lis[i].Ended? && n.kids[i].Is(e) && (e == Nil ==> i + 1 == |n.kids|)
  }

  /** Subtasks before f passed on the baton, f holds it (once launched), the later ones are untouched. */
  predicate SeqAt(n: Node, f: nat)
    requires |n.kids| == |n.lis|
  {
    && f < |n.kids|
    && (forall i | 0 <= i < f :: PassedOn(n, i))
    && (forall i | f < i < |n.kids| :: n.kids[i].proc.Unstarted?)
    && (n.kids[f].proc.Started() <==> (n.proc.Active? && n.proc.k == 1) || n.proc.Ret())
    && (n.kids[f].proc.Unstarted? ==> f == 0)
    && (n.lis[f] == Sending(Nil) ==> f + 1 == |n.kids|)
    && if n.got == [] then !n.lis[f].Ended? else |n.got| == 1 && Delivered(n, f, n.got[0])
  }

  function CountEnded(ls: seq<Listener>): nat {
    if ls == [] then 0 else CountEnded(ls[..|ls| - 1]) + if ls[|ls| - 1].Ended? then 1 else 0
  }

  /** Some listener delivered e, the error of its subtask. */
  ghost predicate Received(n: Node, e: Err)
    requires |n.kids| == |n.lis|
  {
    exists i | 0 <= i < |n.kids| :: n.lis[i].Ended? && n.kids[i].Is(e)
  }

  ghost predicate ConcInv(n: Node)
    requires |n.kids| == |n.lis|
  {
    && (n.proc.Active? ==> forall i | 0 <= i < |n.kids| :: n.kids[i].proc.Started() <==> i < n.proc.k)
    && (n.proc.Ret() ==> forall i | 0 <= i < |n.kids| :: n.kids[i].proc.Started())
    && |n.got| == CountEnded(n.lis)
    && (forall j | 0 <= j < |n.got| - 1 :: n.got[j] == Nil)
    && (forall i | 0 <= i < |n.kids| && n.lis[i].Ended? :: n.kids[i].proc.Ret() && n.kids[i].proc.err in n.got)
    && (forall e | e in n.got :: Received(n, e))
  }

  ghost predicate LocalInv(n: Node) {
    && Shape(n)
    && Links(n)
    && (n.task.Leaf? && n.proc.Active? ==> n.proc.k <= |n.task.prog|)
    && (n.task.Sequential? ==> exists f: nat :: SeqAt(n, f))
    && (n.task.Concurrent? ==> ConcInv(n))
  }

  ghost predicate Inv(n: Node) {
    LocalInv(n) && forall i | 0 <= i < |n.kids| :: Inv(n.kids[i])
  }

  // ---------------------------------------------------------------- preservation

  lemma {:induction false} CountNone(ls: seq<Listener>)
    requires forall i | 0 <= i < |ls| :: !ls[i].Ended?
    ensures CountEnded(ls) == 0
  {
    if ls != [] { CountNone(ls[..|ls| - 1]); }
  }

  lemma {:induction false} CountUpdate(ls: seq<Listener>, i: nat, l: Listener)
    requires i < |ls|
    ensures CountEnded(ls[i := l]) == CountEnded(ls) - (if ls[i].Ended? then 1 else 0) + (if l.Ended? then 1 else 0)
  {
    var last := |ls| - 1;
    if i < last {
      CountUpdate(ls[..last], i, l);
      assert ls[i := l][..last] == ls[..last][i := l];
    } else {
      assert ls[i := l][..last] == ls[..last];
    }
  }

  lemma {:induction false} CountBound(ls: seq<Listener>)
    ensures CountEnded(ls) <= |ls|
    ensures CountEnded(ls) == |ls| <==> forall i | 0 <= i < |ls| :: ls[i].Ended?
  {
    if ls != [] {
      var init := ls[..|ls| - 1];
      CountBound(init);
      assert forall i | 0 <= i < |init| :: init[i] == ls[i];
    }
  }

  lemma BootLocal(n: Node)
    requires Shape(n) && n.proc.Unstarted? && n.got == []
    requires forall i | 0 <= i < |n.kids| :: n.lis[i].Waiting? && n.kids[i].proc.Unstarted?
    ensures LocalInv(n)
  {
    if n.task.Sequential? {
      assert SeqAt(n, 0);
    }
    CountNone(n.lis);
  }

  lemma {:induction false} BootInv(t: Task)
    requires WellFormed(t)
    ensures Inv(Boot(t)) && Boot(t).task == t && Boot(t).proc.Unstarted?
    decreases t
  {
    if !t.Leaf? {
      var n := Boot(t);
      assert n.kids == BootAll(t.subs);
      forall i | 0 <= i < |t.subs|
        ensures Inv(n.kids[i]) && n.kids[i].task == t.subs[i] && n.kids[i].proc.Unstarted?
      {
        BootInv(t.subs[i]);
      }
      BootLocal(n);
    }
  }

  lemma LaunchedInv(t: Task)
    requires WellFormed(t)
    ensures Inv(Launched(t))
  {
    BootInv(t);
    SpawnInv(Boot(t));
  }

  /** How a goroutine can move in one of its own steps. */
  predicate Moves(p: Proc, q: Proc, notifies: bool) {
    && (p.Started() <==> q.Started())
    && (if notifies then p.Returned? && q == Notified(p.err) else p.Told() <==> q.Told())
    && (p.Ret() ==> q.Ret() && q.err == p.err)
  }

  lemma StepMoves(n: Node, s: Step)
    requires Next(n, s).Some?
    ensures Next(n, s).value.task == n.task && Moves(n.proc, Next(n, s).value.proc, s.Notify?)
  {
  }

  lemma SpawnInv(n: Node)
    requires Inv(n) && n.proc.Unstarted?
    ensures Inv(n.(proc := Spawned))
  {
    var m := n.(proc := Spawned);
    if n.task.Sequential? {
      var f: nat :| SeqAt(n, f);
      assert SeqAt(m, f);
    }
  }

  /** The node after a move of subtask i. */
  function WithKid(n: Node, i: nat, c: Node, notifies: bool): Node
    requires i < |n.kids| == |n.lis|
    requires notifies ==> c.proc.Notified?
  {
    n.(kids := n.kids[i := c], lis := if notifies then n.lis[i := Called(c.proc.err)] else n.lis)
  }

  lemma SubLinks(n: Node, i: nat, c: Node, notifies: bool)
    requires Shape(n) && Links(n)
    requires i < |n.kids| && c.task == n.kids[i].task && Moves(n.kids[i].proc, c.proc, notifies)
    ensures Shape(WithKid(n, i, c, notifies)) && Links(WithKid(n, i, c, notifies))
  {
    var m := WithKid(n, i, c, notifies);
    assert forall j | 0 <= j < |n.kids| && j != i :: m.kids[j] == n.kids[j] && m.lis[j] == n.lis[j];
  }

  lemma SubSeq(n: Node, f: nat, i: nat, c: Node, notifies: bool)
    requires |n.kids| == |n.lis| && Links(n) && SeqAt(n, f)
    requires i < |n.kids| && Moves(n.kids[i].proc, c.proc, notifies)
    ensures SeqAt(WithKid(n, i, c, notifies), f)
  {
    var m := WithKid(n, i, c, notifies);
    assert forall j | 0 <= j < |n.kids| && j != i :: m.kids[j] == n.kids[j] && m.lis[j] == n.lis[j];
    forall j | 0 <= j < f ensures PassedOn(m, j) {
      assert PassedOn(n, j);
    }
  }

  lemma SubReceived(n: Node, i: nat, c: Node, notifies: bool, e: Err)
    requires |n.kids| == |n.lis| && Links(n) && Received(n, e)
    requires i < |n.kids| && Moves(n.kids[i].proc, c.proc, notifies)
    ensures Received(WithKid(n, i, c, notifies), e)
  {
    var m := WithKid(n, i, c, notifies);
    var j :| 0 <= j < |n.kids| && n.lis[j].Ended? && n.kids[j].Is(e);
    assert m.lis[j].Ended? && m.kids[j].Is(e);
  }

  lemma SubConc(n: Node, i: nat, c: Node, notifies: bool)
    requires |n.kids| == |n.lis| && Links(n) && ConcInv(n)
    requires i < |n.kids| && Moves(n.kids[i].proc, c.proc, notifies)
    ensures ConcInv(WithKid(n, i, c, notifies))
  {
    hide CountEnded, Received;
    var m := WithKid(n, i, c, notifies);
    CountUpdate(n.lis, i, m.lis[i]);
    assert m.lis == n.lis[i := m.lis[i]];
    assert forall j | 0 <= j < |n.kids| && j != i :: m.kids[j] == n.kids[j] && m.lis[j] == n.lis[j];
    forall x | x in m.got ensures Received(m, x) {
      SubReceived(n, i, c, notifies, x);
    }
  }

  lemma SubLocal(n: Node, i: nat, c: Node, notifies: bool)
    requires LocalInv(n)
    requires i < |n.kids| && c.task == n.kids[i].task && Moves(n.kids[i].proc, c.proc, notifies)
    ensures LocalInv(WithKid(n, i, c, notifies))
  {
    SubLinks(n, i, c, notifies);
    if n.task.Sequential? {
      var f: nat :| SeqAt(n, f);
      SubSeq(n, f, i, c, notifies);
    } else if n.task.Concurrent? {
      SubConc(n, i, c, notifies);
    }
  }

  lemma LaunchSeq(n: Node)
    requires LocalInv(n) && n.task.Sequential? && n.proc == Active(0)
    ensures n.kids[0].proc.Unstarted?
    ensures LocalInv(Spawn(n, 0).(proc := Active(1)))
  {
    var f: nat :| SeqAt(n, f);
    var m := Spawn(n, 0).(proc := Active(1));
    assert forall i | 0 < i < |n.kids| :: m.kids[i] == n.kids[i];
    assert SeqAt(m, 0);
  }

  lemma LaunchConc(n: Node)
    requires LocalInv(n) && n.task.Concurrent? && n.proc.Active? && n.proc.k < |n.kids|
    ensures n.kids[n.proc.k].proc.Unstarted?
    ensures LocalInv(Spawn(n, n.proc.k).(proc := Active(n.proc.k + 1)))
  {
    var k := n.proc.k;
    var m := Spawn(n, k).(proc := Active(k + 1));
    assert forall i | 0 <= i < |n.kids| && i != k :: m.kids[i] == n.kids[i];
  }

  lemma ReceiveSeq(n: Node, i: nat)
    requires LocalInv(n) && n.task.Sequential? && n.proc == Active(1) && n.got == []
    requires i < |n.lis| && n.lis[i].Sending?
    ensures LocalInv(n.(lis := n.lis[i := Ended], got := n.got + [n.lis[i].err]))
  {
    var m := n.(lis := n.lis[i := Ended], got := n.got + [n.lis[i].err]);
    var f: nat :| SeqAt(n, f);
    assert !PassedOn(n, i);
    assert i == f;
    assert forall j | 0 <= j < |n.kids| && j != i :: m.lis[j] == n.lis[j];
    forall j | 0 <= j < f ensures PassedOn(m, j) {
      assert PassedOn(n, j);
    }
    assert SeqAt(m, f);
  }

  function Take(n: Node, i: nat): Node
    requires i < |n.lis| && n.lis[i].Sending?
  {
    n.(lis := n.lis[i := Ended], got := n.got + [n.lis[i].err])
  }

  lemma TakeReceived(n: Node, i: nat, e: Err)
    requires |n.kids| == |n.lis| && i < |n.lis| && n.lis[i].Sending?
    requires Received(n, e) || (e == n.lis[i].err && n.kids[i].Is(e))
    ensures Received(Take(n, i), e)
  {
    if Received(n, e) {
      var j :| 0 <= j < |n.kids| && n.lis[j].Ended? && n.kids[j].Is(e);
      assert Take(n, i).lis[j].Ended? && Take(n, i).kids[j].Is(e);
    } else {
      assert Take(n, i).lis[i].Ended? && Take(n, i).kids[i].Is(e);
    }
  }

  lemma TakeConc(n: Node, i: nat)
    requires |n.kids| == |n.lis| && Links(n) && ConcInv(n) && n.task.Concurrent?
    requires n.proc == Active(|n.kids|) && !Closed(n) && i < |n.lis| && n.lis[i].Sending?
    ensures ConcInv(Take(n, i))
  {
    var m := Take(n, i);
    CountUpdate(n.lis, i, Ended);
    assert forall j | 0 <= j < |n.kids| && j != i :: m.lis[j] == n.lis[j];
    forall x | x in m.got ensures Received(m, x) {
      TakeReceived(n, i, x);
    }
  }

  lemma ReceiveConc(n: Node, i: nat)
    requires LocalInv(n) && n.task.Concurrent? && n.proc == Active(|n.kids|) && !Closed(n)
    requires i < |n.lis| && n.lis[i].Sending?
    ensures LocalInv(Take(n, i))
  {
    TakeConc(n, i);
    assert forall j | 0 <= j < |n.kids| && j != i :: Take(n, i).lis[j] == n.lis[j];
  }

  lemma PassOnFresh(n: Node, i: nat)
    requires LocalInv(n) && n.task.Sequential? && i + 1 < |n.kids| && n.lis[i] == Called(Nil)
    ensures n.kids[i + 1].proc.Unstarted? && SeqAt(n, i)
  {
    var f: nat :| SeqAt(n, f);
    assert !PassedOn(n, i);
    assert i == f;
  }

  lemma PassOnSeq(n: Node, i: nat)
    requires LocalInv(n) && n.task.Sequential? && i + 1 < |n.kids| && n.lis[i] == Called(Nil)
    ensures LocalInv(Spawn(n, i + 1).(lis := n.lis[i := Ended]))
  {
    PassOnFresh(n, i);
    var m := Spawn(n, i + 1).(lis := n.lis[i := Ended]);
    assert forall j | 0 <= j < |n.kids| && j != i + 1 :: m.kids[j] == n.kids[j];
    assert forall j | 0 <= j < |n.kids| && j != i :: m.lis[j] == n.lis[j];
    forall j | 0 <= j < i + 1 ensures PassedOn(m, j) {
      assert j < i ==> PassedOn(n, j);
    }
    assert SeqAt(m, i + 1);
  }

  function Offer(n: Node, i: nat): Node
    requires i < |n.lis| && n.lis[i].Called?
  {
    n.(lis := n.lis[i := Sending(n.lis[i].err)])
  }

  lemma OfferSeq(n: Node, i: nat)
    requires LocalInv(n) && n.task.Sequential? && i < |n.lis| && n.lis[i].Called?
    requires n.lis[i].err == Nil ==> i + 1 == |n.kids|
    ensures LocalInv(Offer(n, i))
  {
    var m := Offer(n, i);
    assert forall j | 0 <= j < |n.kids| && j != i :: m.lis[j] == n.lis[j];
    var f: nat :| SeqAt(n, f);
    forall j | 0 <= j < f ensures PassedOn(m, j) {
      assert PassedOn(n, j);
    }
    assert SeqAt(m, f);
  }

  lemma OfferLinks(n: Node, i: nat)
    requires Shape(n) && Links(n) && i < |n.lis| && n.lis[i].Called?
    ensures Shape(Offer(n, i)) && Links(Offer(n, i))
  {
    var m := Offer(n, i);
    assert forall j | 0 <= j < |n.kids| && j != i :: m.lis[j] == n.lis[j];
  }

  lemma OfferReceived(n: Node, i: nat, e: Err)
    requires |n.kids| == |n.lis| && i < |n.lis| && n.lis[i].Called? && Received(n, e)
    ensures Received(Offer(n, i), e)
  {
    var j :| 0 <= j < |n.kids| && n.lis[j].Ended? && n.kids[j].Is(e);
    assert Offer(n, i).lis[j].Ended? && Offer(n, i).kids[j].Is(e);
  }

  lemma OfferConc(n: Node, i: nat)
    requires Shape(n) && Links(n) && ConcInv(n) && n.task.Concurrent? && i < |n.lis| && n.lis[i].Called?
    ensures LocalInv(Offer(n, i))
  {
    OfferLinks(n, i);
    var m := Offer(n, i);
    assert forall j | 0 <= j < |n.kids| && j != i :: m.lis[j] == n.lis[j];
    CountUpdate(n.lis, i, m.lis[i]);
    forall x | x in m.got ensures Received(m, x) {
      OfferReceived(n, i, x);
    }
  }

  lemma LeafLocal(n: Node, s: Step)
    requires LocalInv(n) && n.task.Leaf? && Next(n, s).Some?
    ensures LocalInv(Next(n, s).value)
  {
  }

  /** The moves of a parent's own goroutine that leave its subtasks and listeners alone. */
  predicate OwnMove(n: Node, p: Proc) {
    match n.proc
    case Spawned => p == Active(0)
    case Active(k) => k == Launches(n) && Closed(n) && p == Returned(if n.got == [] then Nil else n.got[|n.got| - 1])
    case Returned(e) => p == Notified(e)
    case Notified(e) => p == Finished(e)
    case _ => false
  }

  lemma OwnSeq(n: Node, p: Proc)
    requires LocalInv(n) && n.task.Sequential? && OwnMove(n, p)
    ensures LocalInv(n.(proc := p))
  {
    var m := n.(proc := p);
    var f: nat :| SeqAt(n, f);
    assert forall i | 0 <= i < |n.kids| :: PassedOn(m, i) == PassedOn(n, i);
    assert SeqAt(m, f);
  }

  lemma OwnConc(n: Node, p: Proc)
    requires LocalInv(n) && n.task.Concurrent? && OwnMove(n, p)
    ensures LocalInv(n.(proc := p))
  {
    var m := n.(proc := p);
    assert forall e :: Received(n, e) ==> Received(m, e);
  }

  lemma OwnLocal(n: Node, s: Step)
    requires LocalInv(n) && Next(n, s).Some?
    requires !s.Sub? && !s.Launch? && !s.Receive? && !s.RunListener?
    ensures LocalInv(Next(n, s).value)
  {
    if n.task.Leaf? {
      LeafLocal(n, s);
    } else {
      var p := Next(n, s).value.proc;
      assert Next(n, s).value == n.(proc := p) && OwnMove(n, p);
      if n.task.Sequential? { OwnSeq(n, p); } else { OwnConc(n, p); }
    }
  }

  /** A subtask is spawned only while it is unstarted. */
  predicate SpawnsFresh(n: Node, s: Step) {
    match s
    case Launch => n.proc.Active? && n.proc.k < |n.kids| ==> n.kids[n.proc.k].proc.Unstarted?
    case RunListener(i) =>
      n.task.Sequential? && i + 1 < |n.kids| && i < |n.lis| && n.lis[i] == Called(Nil) ==> n.kids[i + 1].proc.Unstarted?
    case Sub(i, s') => i < |n.kids| ==> SpawnsFresh(n.kids[i], s')
    case _ => true
  }

  lemma LaunchInv(n: Node)
    requires Inv(n) && Next(n, Launch).Some?
    ensures Inv(Next(n, Launch).value) && SpawnsFresh(n, Launch)
  {
    hide Inv, LocalInv;
    InvLocal(n);
    var k := n.proc.k;
    if n.task.Sequential? { LaunchSeq(n); } else { LaunchConc(n); }
    SpawnKidInv(n, k, Next(n, Launch).value);
  }

  /** Spawning a fresh subtask keeps the invariant of all subtasks. */
  lemma SpawnKidInv(n: Node, i: nat, m: Node)
    requires Inv(n) && i < |n.kids| && n.kids[i].proc.Unstarted?
    requires m.kids == n.kids[i := n.kids[i].(proc := Spawned)] && LocalInv(m)
    ensures Inv(m)
  {
    SpawnInv(n.kids[i]);
  }

  lemma SameKidsInv(n: Node, m: Node)
    requires Inv(n) && m.kids == n.kids && LocalInv(m)
    ensures Inv(m)
  {
  }

  lemma OfferInv(n: Node, i: nat)
    requires Inv(n) && i < |n.lis| && n.lis[i].Called?
    requires n.task.Sequential? && n.lis[i].err == Nil ==> i + 1 == |n.kids|
    ensures Inv(Offer(n, i))
  {
    if n.task.Sequential? { OfferSeq(n, i); } else { OfferConc(n, i); }
    SameKidsInv(n, Offer(n, i));
  }

  lemma PassOnInv(n: Node, i: nat)
    requires Inv(n) && n.task.Sequential? && i + 1 < |n.kids| && n.lis[i] == Called(Nil)
    ensures Inv(Spawn(n, i + 1).(lis := n.lis[i := Ended])) && n.kids[i + 1].proc.Unstarted?
  {
    hide Inv, LocalInv, Shape, Links, SeqAt;
    InvLocal(n);
    PassOnFresh(n, i);
    PassOnSeq(n, i);
    SpawnKidInv(n, i + 1, Spawn(n, i + 1).(lis := n.lis[i := Ended]));
  }

  lemma InvLocal(n: Node)
    requires Inv(n)
    ensures LocalInv(n) && |n.kids| == |n.lis|
  {
  }

  lemma ListenerInv(n: Node, i: nat)
    requires Inv(n) && Next(n, RunListener(i)).Some?
    ensures Inv(Next(n, RunListener(i)).value) && SpawnsFresh(n, RunListener(i))
  {
    if n.task.Sequential? && i + 1 < |n.kids| && n.lis[i].err == Nil {
      PassOnInv(n, i);
    } else {
      OfferInv(n, i);
    }
  }

  lemma ReceiveInv(n: Node, i: nat)
    requires Inv(n) && Next(n, Receive(i)).Some?
    ensures Inv(Next(n, Receive(i)).value)
  {
    if n.task.Sequential? { ReceiveSeq(n, i); } else { ReceiveConc(n, i); }
  }

  lemma NodeStepInv(n: Node, s: Step)
    requires Inv(n) && Next(n, s).Some? && !s.Sub?
    ensures Inv(Next(n, s).value) && SpawnsFresh(n, s)
  {
    hide Inv, LocalInv, Next;
    if s.Launch? {
      LaunchInv(n);
    } else if s.Receive? {
      ReceiveInv(n, s.i);
    } else if s.RunListener? {
      ListenerInv(n, s.i);
    } else {
      OwnInv(n, s);
    }
  }

  lemma OwnInv(n: Node, s: Step)
    requires Inv(n) && Next(n, s).Some? && !s.Sub? && !s.Launch? && !s.Receive? && !s.RunListener?
    ensures Inv(Next(n, s).value)
  {
    InvLocal(n);
    OwnLocal(n, s);
    hide Inv, LocalInv;
    SameKidsInv(n, Next(n, s).value);
  }

  lemma SubInv(n: Node, i: nat, c: Node, notifies: bool)
    requires Inv(n) && i < |n.kids| && Inv(c) && c.task == n.kids[i].task && Moves(n.kids[i].proc, c.proc, notifies)
    ensures Inv(WithKid(n, i, c, notifies))
  {
    SubLocal(n, i, c, notifies);
  }

  /** Every step of every goroutine keeps the invariant of the whole tree and starts no task twice. */
  lemma {:induction false} StepInv(n: Node, s: Step)
    requires Inv(n) && Next(n, s).Some?
    ensures Inv(Next(n, s).value) && SpawnsFresh(n, s)
    decreases s
  {
    if s.Sub? {
      var c := Next(n.kids[s.i], s.step).value;
      StepInv(n.kids[s.i], s.step);
      StepMoves(n.kids[s.i], s.step);
      SubInv(n, s.i, c, s.step.Notify?);
      assert Next(n, s).value == WithKid(n, s.i, c, s.step.Notify?);
    } else {
      NodeStepInv(n, s);
    }
  }

  // ---------------------------------------------------------------- termination

  function ProcWeight(p: Proc, size: nat): nat {
    match p
    case Unstarted => size + 5
    case Spawned => size + 4
    case Active(k) => 3 + if k <= size then size - k else 0
    case Returned(_) => 2
    case Notified(_) => 1
    case Finished(_) => 0
  }

  function ListenerWeight(l: Listener): nat {
    match l
    case Waiting => 3
    case Called(_) => 2
    case Sending(_) => 1
    case Ended => 0
  }

  function ListenersWeight(ls: seq<Listener>): nat {
    if ls == [] then 0 else ListenersWeight(ls[..|ls| - 1]) + ListenerWeight(ls[|ls| - 1])
  }

  /** An upper bound on the number of steps that all goroutines of the tree can still take. */
  function Weight(n: Node): nat
    decreases n
  {
    ProcWeight(n.proc, if n.task.Leaf? then |n.task.prog| else |n.kids|)
    + KidsWeight(n.kids) + ListenersWeight(n.lis)
  }

  function KidsWeight(ns: seq<Node>): nat
    decreases ns
  {
    if ns == [] then 0 else KidsWeight(ns[..|ns| - 1]) + Weight(ns[|ns| - 1])
  }

  lemma {:induction false} ListenersWeightUpdate(ls: seq<Listener>, i: nat, l: Listener)
    requires i < |ls|
    ensures ListenersWeight(ls[i := l]) == ListenersWeight(ls) - ListenerWeight(ls[i]) + ListenerWeight(l)
  {
    var last := |ls| - 1;
    if i < last {
      ListenersWeightUpdate(ls[..last], i, l);
      assert ls[i := l][..last] == ls[..last][i := l];
    } else {
      assert ls[i := l][..last] == ls[..last];
    }
  }

  lemma {:induction false} KidsWeightUpdate(ns: seq<Node>, i: nat, c: Node)
    requires i < |ns|
    ensures KidsWeight(ns[i := c]) == KidsWeight(ns) - Weight(ns[i]) + Weight(c)
  {
    var last := |ns| - 1;
    if i < last {
      KidsWeightUpdate(ns[..last], i, c);
      assert ns[i := c][..last] == ns[..last][i := c];
    } else {
      assert ns[i := c][..last] == ns[..last];
    }
  }

  lemma SpawnWeight(n: Node)
    requires n.proc.Unstarted?
    ensures Weight(n.(proc := Spawned)) < Weight(n)
  {
  }

  lemma LaunchWeight(n: Node)
    requires LocalInv(n) && Next(n, Launch).Some?
    ensures Weight(Next(n, Launch).value) < Weight(n)
  {
    if n.task.Sequential? { LaunchSeq(n); } else { LaunchConc(n); }
    var k := n.proc.k;
    var c := n.kids[k].(proc := Spawned);
    SpawnWeight(n.kids[k]);
    KidsWeightUpdate(n.kids, k, c);
  }

  lemma PassOnWeight(n: Node, i: nat)
    requires i + 1 < |n.kids| == |n.lis| && n.lis[i].Called? && n.kids[i + 1].proc.Unstarted?
    ensures Weight(Spawn(n, i + 1).(lis := n.lis[i := Ended])) < Weight(n)
  {
    SpawnWeight(n.kids[i + 1]);
    KidsWeightUpdate(n.kids, i + 1, n.kids[i + 1].(proc := Spawned));
    ListenersWeightUpdate(n.lis, i, Ended);
  }

  lemma OfferWeight(n: Node, i: nat)
    requires i < |n.lis| && n.lis[i].Called?
    ensures Weight(Offer(n, i)) < Weight(n)
  {
    ListenersWeightUpdate(n.lis, i, Sending(n.lis[i].err));
  }

  lemma ListenerRunWeight(n: Node, i: nat)
    requires LocalInv(n) && Next(n, RunListener(i)).Some?
    ensures Weight(Next(n, RunListener(i)).value) < Weight(n)
  {
    if n.task.Sequential? && i + 1 < |n.kids| && n.lis[i].err == Nil {
      PassOnFresh(n, i);
      PassOnWeight(n, i);
    } else {
      OfferWeight(n, i);
    }
  }

  lemma ReceiveWeight(n: Node, i: nat)
    requires Next(n, Receive(i)).Some?
    ensures Weight(Next(n, Receive(i)).value) < Weight(n)
  {
    ListenersWeightUpdate(n.lis, i, Ended);
  }

  lemma OwnWeight(n: Node, s: Step)
    requires Next(n, s).Some?
    requires !s.Sub? && !s.Launch? && !s.Receive? && !s.RunListener?
    ensures Weight(Next(n, s).value) < Weight(n)
  {
    var m := Next(n, s).value;
    assert m.kids == n.kids && m.lis == n.lis && m.task == n.task;
  }

  lemma SubWeight(n: Node, i: nat, c: Node, notifies: bool)
    requires i < |n.kids| == |n.lis| && (notifies ==> c.proc.Notified? && n.lis[i].Waiting?)
    requires Weight(c) < Weight(n.kids[i])
    ensures Weight(WithKid(n, i, c, notifies)) < Weight(n)
  {
    KidsWeightUpdate(n.kids, i, c);
    if notifies { ListenersWeightUpdate(n.lis, i, Called(c.proc.err)); }
  }

  /** Every step of every goroutine uses up some weight. */
  lemma {:induction false} StepWeight(n: Node, s: Step)
    requires Inv(n) && Next(n, s).Some?
    ensures Weight(Next(n, s).value) < Weight(n)
    decreases s
  {
    match s
    case Launch => LaunchWeight(n);
    case Receive(i) => ReceiveWeight(n, i);
    case RunListener(i) => ListenerRunWeight(n, i);
    case Sub(i, s') =>
      var c := Next(n.kids[i], s').value;
      StepWeight(n.kids[i], s');
      StepMoves(n.kids[i], s');
      SubWeight(n, i, c, s'.Notify?);
      assert Next(n, s).value == WithKid(n, i, c, s'.Notify?);
    case _ => OwnWeight(n, s);
  }

  /** Every interleaving keeps the invariant and has at most `Weight` steps. */
  lemma {:induction false} RunInv(n: Node, steps: seq<Step>)
    requires Inv(n) && Run(n, steps).Some?
    ensures Inv(Run(n, steps).value)
    ensures |steps| + Weight(Run(n, steps).value) <= Weight(n)
  {
    if steps != [] {
      var prefix := steps[..|steps| - 1];
      RunInv(n, prefix);
      StepInv(Run(n, prefix).value, steps[|steps| - 1]);
      StepWeight(Run(n, prefix).value, steps[|steps| - 1]);
    }
  }

  // ---------------------------------------------------------------- progress

  lemma SubEnabled(n: Node, i: nat, s: Step)
    requires Shape(n) && i < |n.kids| && Next(n.kids[i], s).Some?
    ensures Next(n, Sub(i, s)).Some?
  {
  }

  /** In a concurrent node that still waits for messages, some subtask has not delivered. */
  lemma Undelivered(n: Node) returns (i: nat)
    requires LocalInv(n) && n.task.Concurrent? && !Closed(n)
    ensures i < |n.kids| && !n.lis[i].Ended?
  {
    CountBound(n.lis);
    i :| 0 <= i < |n.lis| && !n.lis[i].Ended?;
  }

  /** The subtask whose message, or whose end, an active parent waits for. */
  lemma Awaited(n: Node) returns (i: nat)
    requires LocalInv(n) && !n.task.Leaf? && n.proc == Active(Launches(n)) && !Closed(n)
    ensures i < |n.kids| && n.kids[i].proc.Started() && !n.lis[i].Ended?
    ensures n.lis[i].Waiting? ==> !n.kids[i].proc.Finished?
  {
    if n.task.Sequential? {
      i :| SeqAt(n, i);
    } else {
      i := Undelivered(n);
    }
  }

  /** No leaf function fails in this step. */
  predicate Harmless(s: Step) {
    match s
    case Fail(_) => false
    case Sub(_, s') => Harmless(s')
    case _ => true
  }

  /** A parent that has launched its subtasks and waits for a message. */
  predicate Waits(n: Node) { !n.task.Leaf? && n.proc == Active(Launches(n)) && !Closed(n) }

  /** A goroutine that does not wait can take its own next step. */
  lemma OwnProgress(n: Node) returns (s: Step)
    requires LocalInv(n) && n.proc.Started() && !n.proc.Finished? && !Waits(n)
    ensures Next(n, s).Some? && Harmless(s)
  {
    match n.proc
    case Spawned => s := Begin;
    case Returned(_) => s := Notify;
    case Notified(_) => s := SetStatus;
    case Active(k) =>
      s := if n.task.Leaf? then (if k < |n.task.prog| then Touch else Succeed)
           else if k < Launches(n) then Launch
           else Conclude;
  }

  /** A listener that was called can run, and one that sends can be received from. */
  lemma ListenerProgress(n: Node, i: nat) returns (s: Step)
    requires Waits(n) && i < |n.lis| && (n.lis[i].Called? || n.lis[i].Sending?)
    ensures Next(n, s).Some? && Harmless(s)
  {
    s := if n.lis[i].Called? then RunListener(i) else Receive(i);
  }

  /** A started task that is not finished always has an enabled step somewhere below it, in which no leaf fails. */
  lemma {:induction false} Progress(n: Node) returns (s: Step)
    requires Inv(n) && n.proc.Started() && !n.proc.Finished?
    ensures Next(n, s).Some? && Harmless(s)
    decreases n
  {
    hide Next, LocalInv, Waits;
    if Waits(n) {
      var i := WaitsFor(n);
      if n.lis[i].Waiting? {
        var s' := Progress(n.kids[i]);
        InvShape(n);
        SubEnabled(n, i, s');
        s := Sub(i, s');
      } else {
        s := ListenerProgress(n, i);
      }
    } else {
      s := OwnProgress(n);
    }
  }

  lemma InvShape(n: Node)
    requires Inv(n)
    ensures Shape(n)
  {
  }

  lemma WaitsFor(n: Node) returns (i: nat)
    requires Inv(n) && Waits(n)
    ensures i < |n.kids| == |n.lis| && n.kids[i].proc.Started() && !n.lis[i].Ended?
    ensures n.lis[i].Waiting? ==> !n.kids[i].proc.Finished?
  {
    i := Awaited(n);
  }

  /** All started tasks in the tree are finished. */
  predicate Settled(n: Node) {
    (n.proc.Unstarted? || n.proc.Finished?) && forall i | 0 <= i < |n.kids| :: Settled(n.kids[i])
  }

  lemma {:induction false} QuiescentSettled(n: Node)
    requires Inv(n) && Quiescent(n)
    ensures Settled(n)
    decreases n
  {
    if n.proc.Started() && !n.proc.Finished? {
      var s := Progress(n);
    }
    forall i | 0 <= i < |n.kids| ensures Settled(n.kids[i]) {
      forall s ensures Next(n.kids[i], s).None? {
        if Next(n.kids[i], s).Some? { SubEnabled(n, i, s); }
      }
      QuiescentSettled(n.kids[i]);
    }
  }

  // ---------------------------------------------------------------- outcomes

  /** Every leaf function in the tree returned nil. */
  predicate LeavesNil(n: Node) {
    if n.task.Leaf? then n.Is(Nil) else forall i | 0 <= i < |n.kids| :: LeavesNil(n.kids[i])
  }

  /** Some leaf function in the tree returned e. */
  ghost predicate LeafReturned(n: Node, e: Err) {
    if n.task.Leaf? then n.Is(e) else exists i | 0 <= i < |n.kids| :: LeafReturned(n.kids[i], e)
  }

  /**
    A sequential task that returned: the subtasks up to f ran in order, all but the last of them
    returned nil, f returned what the parent returned, the later ones were never started, exactly
    one message crossed the channel and no listener is left waiting to send.
  */
  predicate SequentialResult(n: Node, f: nat)
    requires |n.kids| == |n.lis| && n.proc.Ret()
  {
    && f < |n.kids|
    && (forall i | 0 <= i < f :: n.kids[i].Is(Nil))
    && n.kids[f].Is(n.proc.err)
    && (n.proc.err == Nil ==> f + 1 == |n.kids|)
    && (forall i | f < i < |n.kids| :: n.kids[i].proc.Unstarted?)
    && |n.got| == 1
    && (forall i | 0 <= i < |n.lis| :: !n.lis[i].Sending?)
  }

  lemma SequentialOutcome(n: Node) returns (f: nat)
    requires LocalInv(n) && n.task.Sequential? && n.proc.Ret()
    ensures SequentialResult(n, f)
  {
    f :| SeqAt(n, f);
    forall i | 0 <= i < f ensures n.kids[i].Is(Nil) && n.lis[i].Ended? {
      assert PassedOn(n, i);
    }
    assert forall i | f < i < |n.kids| :: n.lis[i].Waiting?;
  }

  /** While a sequential task runs, a started subtask has only successful predecessors. */
  lemma SequentialOrder(n: Node, i: nat, j: nat)
    requires LocalInv(n) && n.task.Sequential? && i < j < |n.kids| && n.kids[j].proc.Started()
    ensures n.kids[i].Is(Nil)
  {
    var f: nat :| SeqAt(n, f);
    assert PassedOn(n, i);
  }

  function CountSending(ls: seq<Listener>): nat {
    if ls == [] then 0 else CountSending(ls[..|ls| - 1]) + if ls[|ls| - 1].Sending? then 1 else 0
  }

  lemma {:induction false} CountSplit(ls: seq<Listener>)
    requires forall i | 0 <= i < |ls| :: ls[i].Ended? || ls[i].Sending?
    ensures CountEnded(ls) + CountSending(ls) == |ls|
  {
    if ls != [] { CountSplit(ls[..|ls| - 1]); }
  }

  /**
    A concurrent task that returned nil received one nil from each subtask.
  */
  lemma ConcurrentSuccess(n: Node)
    requires LocalInv(n) && n.task.Concurrent? && n.Is(Nil)
    ensures |n.got| == |n.kids| && forall i | 0 <= i < |n.kids| :: n.kids[i].Is(Nil)
  {
    CountBound(n.lis);
    assert forall j | 0 <= j < |n.got| :: n.got[j] == Nil;
    forall i | 0 <= i < |n.kids| ensures n.kids[i].Is(Nil) {
      assert n.lis[i].Ended?;
      assert n.kids[i].proc.err in n.got;
    }
  }

  /**
    A concurrent task that returned an error received it as its last message, after nothing but nils,
    from a subtask that returned it.
  */
  lemma ConcurrentFailure(n: Node) returns (i: nat)
    requires LocalInv(n) && n.task.Concurrent? && n.proc.Ret() && n.proc.err != Nil
    ensures n.got != [] && n.got[|n.got| - 1] == n.proc.err
    ensures forall j | 0 <= j < |n.got| - 1 :: n.got[j] == Nil
    ensures i < |n.kids| && n.lis[i].Ended? && n.kids[i].Is(n.proc.err)
  {
    assert n.proc.err in n.got;
    assert Received(n, n.proc.err);
    i :| 0 <= i < |n.kids| && n.lis[i].Ended? && n.kids[i].Is(n.proc.err);
  }

  lemma QuiescentListener(n: Node, i: nat)
    requires LocalInv(n) && i < |n.lis| && Quiescent(n) && n.kids[i].proc.Finished?
    ensures n.lis[i].Ended? || n.lis[i].Sending?
  {
    assert Next(n, RunListener(i)).None?;
  }

  /** Once nothing can move, every message that the parent did not take is stuck in a listener. */
  lemma ConcurrentLeak(n: Node)
    requires Inv(n) && n.task.Concurrent? && n.proc.Ret() && Quiescent(n)
    ensures CountSending(n.lis) == |n.kids| - |n.got|
  {
    QuiescentSettled(n);
    forall i | 0 <= i < |n.lis| ensures n.lis[i].Ended? || n.lis[i].Sending? {
      assert Settled(n.kids[i]);
      QuiescentListener(n, i);
    }
    CountSplit(n.lis);
  }

  /** A task returns nil exactly when every leaf below it did; otherwise its error is one of theirs. */
  lemma {:induction false} Outcome(n: Node)
    requires Inv(n) && n.proc.Ret()
    ensures n.proc.err == Nil <==> LeavesNil(n)
    ensures n.proc.err != Nil ==> LeafReturned(n, n.proc.err)
    decreases n
  {
    if !n.task.Leaf? {
      if n.proc.err == Nil {
        forall i | 0 <= i < |n.kids| ensures LeavesNil(n.kids[i]) {
          AllKidsNil(n, i);
          Outcome(n.kids[i]);
        }
      } else {
        var i := GuiltyKid(n);
        Outcome(n.kids[i]);
      }
    }
  }

  lemma AllKidsNil(n: Node, i: nat)
    requires LocalInv(n) && !n.task.Leaf? && n.Is(Nil) && i < |n.kids|
    ensures n.kids[i].Is(Nil)
  {
    if n.task.Sequential? {
      var f := SequentialOutcome(n);
    } else {
      ConcurrentSuccess(n);
    }
  }

  lemma GuiltyKid(n: Node) returns (i: nat)
    requires LocalInv(n) && !n.task.Leaf? && n.proc.Ret() && n.proc.err != Nil
    ensures i < |n.kids| && n.kids[i].Is(n.proc.err)
  {
    if n.task.Sequential? {
      i := SequentialOutcome(n);
    } else {
      i := ConcurrentFailure(n);
    }
  }

  lemma Reached(t: Task, steps: seq<Step>)
    requires WellFormed(t) && Run(Launched(t), steps).Some?
    ensures Inv(Run(Launched(t), steps).value) && Run(Launched(t), steps).value.proc.Started()
    ensures Run(Launched(t), steps).value.task == t
  {
    LaunchedInv(t);
    RunInv(Launched(t), steps);
    RootStarted(Launched(t), steps);
  }

  // The orchestrator theorem, for every tree and every interleaving.

  /** An interleaving is no longer than a bound fixed by the tree. */
  lemma {:induction false} EveryRunEnds(t: Task, steps: seq<Step>)
    requires WellFormed(t) && Run(Launched(t), steps).Some?
    ensures |steps| <= Weight(Launched(t))
  {
    LaunchedInv(t);
    RunInv(Launched(t), steps);
  }

  /** No reachable state with an unfinished root is stuck. */
  lemma NeverStuck(t: Task, steps: seq<Step>)
    requires WellFormed(t) && Run(Launched(t), steps).Some?
    ensures !Run(Launched(t), steps).value.proc.Finished? ==> exists s :: Next(Run(Launched(t), steps).value, s).Some?
    ensures Quiescent(Run(Launched(t), steps).value) ==> Settled(Run(Launched(t), steps).value)
  {
    hide Next, Inv;
    var m := Run(Launched(t), steps).value;
    Reached(t, steps);
    if !m.proc.Finished? { var s := Progress(m); }
    if Quiescent(m) { QuiescentSettled(m); }
  }

  /** A finished root is Done exactly when every leaf returned nil, and Failed only with the error of some leaf. */
  lemma EveryVerdict(t: Task, steps: seq<Step>)
    requires WellFormed(t) && Run(Launched(t), steps).Some? && Run(Launched(t), steps).value.proc.Finished?
    ensures
      var m := Run(Launched(t), steps).value;
      && (m.proc.err == Nil <==> LeavesNil(m))
      && (m.proc.err != Nil ==> LeafReturned(m, m.proc.err))
  {
    Reached(t, steps);
    Outcome(Run(Launched(t), steps).value);
  }

  lemma {:induction false} RootStarted(n: Node, steps: seq<Step>)
    requires n.proc.Started() && Run(n, steps).Some?
    ensures Run(n, steps).value.proc.Started() && Run(n, steps).value.task == n.task
  {
    if steps != [] {
      var prefix := steps[..|steps| - 1];
      RootStarted(n, prefix);
      StepMoves(Run(n, prefix).value, steps[|steps| - 1]);
    }
  }
}
