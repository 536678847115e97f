/**
  The Nebula certificate controller: several workers reconcile certificate authorities and nodes,
  reading from caches that may be arbitrarily stale and writing to the Kubernetes API.

  A cached read returns any version that an object or a secret ever had. Secrets are created only when absent
  and are immutable; a status write succeeds only on the version the worker read. Users may add,
  edit and delete objects and secrets at any time.
*/
module Nebula {
  import opened Wrappers

  /** Namespace and name. */
  type Key = (string, string)

  datatype CA = CA(secretName: string, ready: bool, version: nat)

  datatype NodeState = Creating | Ready | Failed

  datatype Node = Node(ca: Key, secretName: string, state: NodeState, version: nat)

  datatype Origin = User | FromCA(ca: Key) | FromNode(node: Key)

  datatype Secret = Secret(origin: Origin, data: map<string, string>)

  /** What one worker holds between two API calls. */
  datatype Worker =
    | Idle
    | CARead(key: Key, ca: CA)
    | CACreated(key: Key, ca: CA)
    | NodeRead(key: Key, node: Node)
    | NodeCA(key: Key, node: Node, ca: CA)
    | NodeSigned(key: Key, node: Node, crt: string)
    | NodeCreated(key: Key, node: Node)

  datatype State = State(
    cas: map<Key, CA>,
    nodes: map<Key, Node>,
    secrets: map<Key, Secret>,
    casSeen: set<(Key, CA)>,
    nodesSeen: set<(Key, Node)>,
    secretsSeen: set<(Key, Secret)>,
    clock: nat,
    workers: seq<Worker>)

  datatype Step =
    | AddCA(key: Key, secretName: string)
    | AddNode(key: Key, ca: Key, secretName: string)
    | AddSecret(key: Key, data: map<string, string>)
    | EditCA(key: Key, secretName: string)
    | EditNode(key: Key, ca: Key, secretName: string)
    | DeleteCA(key: Key)
    | DeleteNode(key: Key)
    | DeleteSecret(key: Key)
    | StartCA(w: nat, key: Key, cachedCA: CA)
    | CreateCASecret(w: nat, caKey: string, caCrt: string)
    | WriteCAStatus(w: nat)
    | StartNode(w: nat, key: Key, cachedNode: Node)
    | ReadNodeCA(w: nat, cachedCA: CA)
    | ReadCASecret(w: nat, cachedSecret: Secret)
    | MissCASecret(w: nat)
    | CreateNodeSecret(w: nat, hostKey: string, hostCrt: string)
    | WriteNodeStatus(w: nat)
    | Abort(w: nat)   // any error return: a failed call, a lost reply, a signing error

  function Initial(workers: nat): State {
    State(map[], map[], map[], {}, {}, {}, 0, seq(workers, _ => Idle))
  }

  function PutCA(s: State, k: Key, ca: CA): State {
    s.(cas := s.cas[k := ca], casSeen := s.casSeen + {(k, ca)}, clock := s.clock + 1)
  }

  function PutNode(s: State, k: Key, n: Node): State {
    s.(nodes := s.nodes[k := n], nodesSeen := s.nodesSeen + {(k, n)}, clock := s.clock + 1)
  }

  function PutSecret(s: State, k: Key, x: Secret): State {
    s.(secrets := s.secrets[k := x], secretsSeen := s.secretsSeen + {(k, x)})
  }

  function Become(s: State, w: nat, x: Worker): State
    requires w < |s.workers|
  {
    s.(workers := s.workers[w := x])
  }

  function SecretKey(k: Key, name: string): Key { (k.0, name) }

  function EntryOf(s: Secret, name: string): string { if name in s.data then s.data[name] else "" }

  /** UpdateStatus with the version of the copy that the worker read. */
  function NodeStatusWrite(s: State, k: Key, n: Node, state: NodeState): State {
    if k in s.nodes && s.nodes[k].version == n.version then
      PutNode(s, k, s.nodes[k].(state := state, version := s.clock))
    else s
  }

  function EnvStep(s: State, step: Step): Option<State> {
    match step
    case AddCA(k, name) => if k in s.cas then None else Some(PutCA(s, k, CA(name, false, s.clock)))
    case AddNode(k, ca, name) => if k in s.nodes then None else Some(PutNode(s, k, Node(ca, name, Creating, s.clock)))
    case AddSecret(k, data) => if k in s.secrets then None else Some(PutSecret(s, k, Secret(User, data)))
    case EditCA(k, name) =>
      if k in s.cas then Some(PutCA(s, k, CA(name, s.cas[k].ready, s.clock))) else None
    case EditNode(k, ca, name) =>
      if k in s.nodes then Some(PutNode(s, k, Node(ca, name, s.nodes[k].state, s.clock))) else None
    case DeleteCA(k) => if k in s.cas then Some(s.(cas := s.cas - {k})) else None
    case DeleteNode(k) => if k in s.nodes then Some(s.(nodes := s.nodes - {k})) else None
    case DeleteSecret(k) => if k in s.secrets then Some(s.(secrets := s.secrets - {k})) else None
    case _ => None
  }

  /** processCAWithKey, one API call at a time. */
  function CAStep(s: State, step: Step): Option<State> {
    match step
    case StartCA(w, k, ca) =>
      if w < |s.workers| && s.workers[w].Idle? && (k, ca) in s.casSeen && !ca.ready then
        Some(Become(s, w, CARead(k, ca)))
      else None
    case CreateCASecret(w, key, crt) =>
      if w < |s.workers| && s.workers[w].CARead? then
        var CARead(k, ca) := s.workers[w];
        var sk := SecretKey(k, ca.secretName);
        if sk in s.secrets then Some(Become(s, w, Idle))
        else
          var secret := Secret(FromCA(k), map["ca.key" := key, "ca.crt" := crt]);
          Some(Become(PutSecret(s, sk, secret), w, CACreated(k, ca)))
      else None
    case WriteCAStatus(w) =>
      if w < |s.workers| && s.workers[w].CACreated? then
        var CACreated(k, ca) := s.workers[w];
        var t := if k in s.cas && s.cas[k].version == ca.version
                 then PutCA(s, k, s.cas[k].(ready := true, version := s.clock)) else s;
        Some(Become(t, w, Idle))
      else None
    case _ => None
  }

  /** processNodeWithKey, one read or API call at a time. */
  function NodeStep(s: State, step: Step): Option<State> {
    match step
    case StartNode(w, k, n) =>
      if w < |s.workers| && s.workers[w].Idle? && (k, n) in s.nodesSeen && !n.state.Ready? then
        Some(Become(s, w, NodeRead(k, n)))
      else None
    case ReadNodeCA(w, ca) =>
      if w < |s.workers| && s.workers[w].NodeRead? && (s.workers[w].node.ca, ca) in s.casSeen then
        Some(Become(s, w, if ca.ready then NodeCA(s.workers[w].key, s.workers[w].node, ca) else Idle))
      else None
    case ReadCASecret(w, x) =>
      if w < |s.workers| && s.workers[w].NodeCA? then
        var NodeCA(k, n, ca) := s.workers[w];
        if (SecretKey(n.ca, ca.secretName), x) in s.secretsSeen then
          Some(Become(s, w, NodeSigned(k, n, EntryOf(x, "ca.crt"))))
        else None
      else None
    case MissCASecret(w) =>
      if w < |s.workers| && s.workers[w].NodeCA? then
        var NodeCA(k, n, _) := s.workers[w];
        Some(Become(NodeStatusWrite(s, k, n, Failed), w, Idle))
      else None
    case CreateNodeSecret(w, hostKey, hostCrt) =>
      if w < |s.workers| && s.workers[w].NodeSigned? then
        var NodeSigned(k, n, crt) := s.workers[w];
        var sk := SecretKey(k, n.secretName);
        if sk in s.secrets then Some(Become(s, w, Idle))
        else
          var secret := Secret(FromNode(k), map["ca.crt" := crt, "host.crt" := hostCrt, "host.key" := hostKey]);
          Some(Become(PutSecret(s, sk, secret), w, NodeCreated(k, n)))
      else None
    case WriteNodeStatus(w) =>
      if w < |s.workers| && s.workers[w].NodeCreated? then
        var NodeCreated(k, n) := s.workers[w];
        Some(Become(NodeStatusWrite(s, k, n, Ready), w, Idle))
      else None
    case _ => None
  }

  function Next(s: State, step: Step): Option<State> {
    match step
    case Abort(w) => if w < |s.workers| then Some(Become(s, w, Idle)) else None
    case _ =>
      if EnvStep(s, step).Some? then EnvStep(s, step)
      else if CAStep(s, step).Some? then CAStep(s, step)
      else NodeStep(s, step)
  }

  function Run(s: State, steps: seq<Step>): Option<State> {
    if steps == [] then Some(s)
    else
      match Run(s, steps[..|steps| - 1])
      case None => None
      case Some(t) => Next(t, steps[|steps| - 1])
  }

  // ---------------------------------------------------------------- versions

  /** Objects are seen as they are written, versions lie in the past, and one version is one object. */
  ghost predicate CAVersions(s: State) {
    && (forall k | k in s.cas :: (k, s.cas[k]) in s.casSeen)
    && (forall k, c | (k, c) in s.casSeen :: c.version < s.clock)
    && (forall k, c, d | (k, c) in s.casSeen && (k, d) in s.casSeen && c.version == d.version :: c == d)
  }

  ghost predicate NodeVersions(s: State) {
    && (forall k | k in s.nodes :: (k, s.nodes[k]) in s.nodesSeen)
    && (forall k, n | (k, n) in s.nodesSeen :: n.version < s.clock)
    && (forall k, n, m | (k, n) in s.nodesSeen && (k, m) in s.nodesSeen && n.version == m.version :: n == m)
  }

  /** A worker holds copies that were once current, of objects that were not Ready. */
  predicate Held(s: State, x: Worker) {
    match x
    case Idle => true
    case CARead(k, ca) => (k, ca) in s.casSeen && !ca.ready
    case CACreated(k, ca) => (k, ca) in s.casSeen && !ca.ready
    case NodeRead(k, n) => (k, n) in s.nodesSeen && !n.state.Ready?
    case NodeCA(k, n, ca) => (k, n) in s.nodesSeen && !n.state.Ready? && (n.ca, ca) in s.casSeen && ca.ready
    case NodeSigned(k, n, crt) => (k, n) in s.nodesSeen && !n.state.Ready?
    case NodeCreated(k, n) => (k, n) in s.nodesSeen && !n.state.Ready?
  }

  /** What every run keeps, whatever the users do. */
  ghost predicate Inv(s: State) {
    && CAVersions(s) && NodeVersions(s)
    && (forall k | k in s.secrets :: (k, s.secrets[k]) in s.secretsSeen)
    && (forall w | 0 <= w < |s.workers| :: Held(s, s.workers[w]))
  }

  lemma PutCAVersions(s: State, k: Key, ca: CA)
    requires CAVersions(s) && ca.version == s.clock
    ensures CAVersions(PutCA(s, k, ca))
  {
    var t := PutCA(s, k, ca);
    forall j, c, d | (j, c) in t.casSeen && (j, d) in t.casSeen && c.version == d.version ensures c == d {
      assert (j, c) in s.casSeen ==> c.version < s.clock;
      assert (j, d) in s.casSeen ==> d.version < s.clock;
    }
  }

  lemma PutNodeVersions(s: State, k: Key, n: Node)
    requires NodeVersions(s) && n.version == s.clock
    ensures NodeVersions(PutNode(s, k, n))
  {
    var t := PutNode(s, k, n);
    forall j, c, d | (j, c) in t.nodesSeen && (j, d) in t.nodesSeen && c.version == d.version ensures c == d {
      assert (j, c) in s.nodesSeen ==> c.version < s.clock;
      assert (j, d) in s.nodesSeen ==> d.version < s.clock;
    }
  }

  lemma PutCAInv(s: State, k: Key, ca: CA)
    requires Inv(s) && ca.version == s.clock
    ensures Inv(PutCA(s, k, ca))
  {
    PutCAVersions(s, k, ca);
  }

  lemma PutNodeInv(s: State, k: Key, n: Node)
    requires Inv(s) && n.version == s.clock
    ensures Inv(PutNode(s, k, n))
  {
    PutNodeVersions(s, k, n);
  }

  lemma PutSecretInv(s: State, k: Key, x: Secret)
    requires Inv(s)
    ensures Inv(PutSecret(s, k, x))
  {
  }

  lemma BecomeInv(s: State, w: nat, x: Worker)
    requires Inv(s) && w < |s.workers| && Held(s, x)
    ensures Inv(Become(s, w, x))
  {
  }

  lemma DeleteCAInv(s: State, k: Key)
    requires Inv(s)
    ensures Inv(s.(cas := s.cas - {k}))
  {
  }

  lemma DeleteNodeInv(s: State, k: Key)
    requires Inv(s)
    ensures Inv(s.(nodes := s.nodes - {k}))
  {
  }

  lemma DeleteSecretInv(s: State, k: Key)
    requires Inv(s)
    ensures Inv(s.(secrets := s.secrets - {k}))
  {
  }

  lemma EnvInv(s: State, step: Step)
    requires Inv(s) && EnvStep(s, step).Some?
    ensures Inv(EnvStep(s, step).value)
  {
    hide Inv;
    match step
    case AddCA(k, name) => PutCAInv(s, k, CA(name, false, s.clock));
    case EditCA(k, name) => PutCAInv(s, k, CA(name, s.cas[k].ready, s.clock));
    case AddNode(k, ca, name) => PutNodeInv(s, k, Node(ca, name, Creating, s.clock));
    case EditNode(k, ca, name) => PutNodeInv(s, k, Node(ca, name, s.nodes[k].state, s.clock));
    case AddSecret(k, data) => PutSecretInv(s, k, Secret(User, data));
    case DeleteCA(k) => DeleteCAInv(s, k);
    case DeleteNode(k) => DeleteNodeInv(s, k);
    case DeleteSecret(k) => DeleteSecretInv(s, k);
  }

  /** Of two copies of one object, the version tells whether they are the same. */
  lemma CurrentCA(s: State, k: Key, ca: CA)
    requires Inv(s) && (k, ca) in s.casSeen
    ensures k in s.cas && s.cas[k].version == ca.version ==> s.cas[k] == ca
  {
  }

  lemma CurrentNode(s: State, k: Key, n: Node)
    requires Inv(s) && (k, n) in s.nodesSeen
    ensures k in s.nodes && s.nodes[k].version == n.version ==> s.nodes[k] == n
  {
  }

  lemma HeldBy(s: State, w: nat)
    requires Inv(s) && w < |s.workers|
    ensures Held(s, s.workers[w])
  {
  }

  lemma CAInv(s: State, step: Step)
    requires Inv(s) && CAStep(s, step).Some?
    ensures Inv(CAStep(s, step).value)
  {
    hide Inv;
    HeldBy(s, step.w);
    match step
    case StartCA(w, k, ca) => BecomeInv(s, w, CARead(k, ca));
    case CreateCASecret(w, key, crt) =>
      var CARead(k, ca) := s.workers[w];
      var sk := SecretKey(k, ca.secretName);
      if sk in s.secrets {
        BecomeInv(s, w, Idle);
      } else {
        var t := PutSecret(s, sk, Secret(FromCA(k), map["ca.key" := key, "ca.crt" := crt]));
        PutSecretInv(s, sk, t.secrets[sk]);
        BecomeInv(t, w, CACreated(k, ca));
      }
    case WriteCAStatus(w) =>
      var CACreated(k, ca) := s.workers[w];
      if k in s.cas && s.cas[k].version == ca.version {
        var t := PutCA(s, k, s.cas[k].(ready := true, version := s.clock));
        PutCAInv(s, k, t.cas[k]);
        BecomeInv(t, w, Idle);
      } else {
        BecomeInv(s, w, Idle);
      }
  }

  lemma NodeStatusInv(s: State, w: nat, k: Key, n: Node, state: NodeState)
    requires Inv(s) && w < |s.workers|
    ensures Inv(Become(NodeStatusWrite(s, k, n, state), w, Idle))
  {
    hide Inv;
    if k in s.nodes && s.nodes[k].version == n.version {
      PutNodeInv(s, k, s.nodes[k].(state := state, version := s.clock));
    }
    BecomeInv(NodeStatusWrite(s, k, n, state), w, Idle);
  }

  lemma NodeInv(s: State, step: Step)
    requires Inv(s) && NodeStep(s, step).Some?
    ensures Inv(NodeStep(s, step).value)
  {
    hide Inv;
    HeldBy(s, step.w);
    match step
    case StartNode(w, k, n) => BecomeInv(s, w, NodeRead(k, n));
    case ReadNodeCA(w, ca) =>
      BecomeInv(s, w, if ca.ready then NodeCA(s.workers[w].key, s.workers[w].node, ca) else Idle);
    case ReadCASecret(w, x) =>
      BecomeInv(s, w, NodeSigned(s.workers[w].key, s.workers[w].node, EntryOf(x, "ca.crt")));
    case MissCASecret(w) => NodeStatusInv(s, w, s.workers[w].key, s.workers[w].node, Failed);
    case WriteNodeStatus(w) => NodeStatusInv(s, w, s.workers[w].key, s.workers[w].node, Ready);
    case CreateNodeSecret(w, key, crt) =>
      var NodeSigned(k, n, caCrt) := s.workers[w];
      var sk := SecretKey(k, n.secretName);
      if sk in s.secrets {
        BecomeInv(s, w, Idle);
      } else {
        var x := Secret(FromNode(k), map["ca.crt" := caCrt, "host.crt" := crt, "host.key" := key]);
        PutSecretInv(s, sk, x);
        BecomeInv(PutSecret(s, sk, x), w, NodeCreated(k, n));
      }
  }

  /** Every step of every worker and every user keeps the invariant. */
  lemma {:induction false} StepInv(s: State, step: Step)
    requires Inv(s) && Next(s, step).Some?
    ensures Inv(Next(s, step).value)
  {
    hide Inv;
    if step.Abort? {
      BecomeInv(s, step.w, Idle);
    } else if EnvStep(s, step).Some? {
      EnvInv(s, step);
    } else if CAStep(s, step).Some? {
      CAInv(s, step);
    } else {
      NodeInv(s, step);
    }
  }

  lemma {:induction false} RunInv(s: State, steps: seq<Step>)
    requires Inv(s) && Run(s, steps).Some?
    ensures Inv(Run(s, steps).value)
  {
    hide Inv, Next;
    if steps != [] {
      RunInv(s, steps[..|steps| - 1]);
      StepInv(Run(s, steps[..|steps| - 1]).value, steps[|steps| - 1]);
    }
  }

  lemma InitialInv(workers: nat)
    ensures Inv(Initial(workers))
  {
  }

  // ---------------------------------------------------------------- secrets

  lemma SecretStep(s: State, step: Step, k: Key)
    requires Next(s, step).Some? && k in s.secrets && step != DeleteSecret(k)
    ensures k in Next(s, step).value.secrets && Next(s, step).value.secrets[k] == s.secrets[k]
  {
  }

  /** From any state whatever, a secret keeps its content until it is deleted itself. */
  lemma {:induction false} WrittenOnce(s: State, steps: seq<Step>, k: Key)
    requires Run(s, steps).Some? && k in s.secrets && DeleteSecret(k) !in steps
    ensures k in Run(s, steps).value.secrets && Run(s, steps).value.secrets[k] == s.secrets[k]
  {
    hide Next;
    if steps != [] {
      WrittenOnce(s, steps[..|steps| - 1], k);
      SecretStep(Run(s, steps[..|steps| - 1]).value, steps[|steps| - 1], k);
    }
  }

  // ---------------------------------------------------------------- a Ready CA has its secret

  /** The secret that CA k names is one that the controller created for k. */
  predicate OwnSecret(s: State, k: Key, ca: CA) {
    var sk := SecretKey(k, ca.secretName);
    sk in s.secrets && s.secrets[sk].origin == FromCA(k)
  }

  /** The step does not edit CA k while it is Ready, nor delete the secret of that name that was created for it. */
  predicate SparesCA(s: State, step: Step, k: Key, name: string) {
    && (step.EditCA? && step.key == k ==> !(k in s.cas && s.cas[k].ready))
    && (step == DeleteSecret(SecretKey(k, name)) ==> !OwnSecret(s, k, CA(name, true, 0)))
  }

  predicate RunSparesCA(s: State, steps: seq<Step>, k: Key, name: string) {
    steps != [] ==>
      var before := Run(s, steps[..|steps| - 1]);
      && RunSparesCA(s, steps[..|steps| - 1], k, name)
      && (before.Some? ==> SparesCA(before.value, steps[|steps| - 1], k, name))
  }

  /** As long as it is called `name`, the secret of CA k is its own once it is Ready or about to be. */
  ghost predicate CASafe(s: State, k: Key, name: string) {
    && (k in s.cas && s.cas[k].ready && s.cas[k].secretName == name ==> OwnSecret(s, k, s.cas[k]))
    && forall w | 0 <= w < |s.workers| && s.workers[w].CACreated? && s.workers[w].key == k ::
         s.workers[w].ca.secretName == name ==> OwnSecret(s, k, s.workers[w].ca)
  }

  lemma OwnKept(s: State, step: Step, k: Key, ca: CA)
    requires Next(s, step).Some? && OwnSecret(s, k, ca) && step != DeleteSecret(SecretKey(k, ca.secretName))
    ensures OwnSecret(Next(s, step).value, k, ca)
  {
    hide Next;
    SecretStep(s, step, SecretKey(k, ca.secretName));
  }

  /** A CA becomes Ready in one way only: the worker that created its secret reports the copy it read. */
  lemma BecomesReady(s: State, step: Step, k: Key)
    requires Inv(s) && Next(s, step).Some?
    requires k in Next(s, step).value.cas && Next(s, step).value.cas[k].ready
    ensures
      var ca := Next(s, step).value.cas[k];
      || (k in s.cas && s.cas[k] == ca)
      || (step.EditCA? && step.key == k && k in s.cas && s.cas[k].ready)
      || (step.WriteCAStatus? && step.w < |s.workers| && s.workers[step.w].CACreated? && s.workers[step.w].key == k
          && s.workers[step.w].ca.secretName == ca.secretName)
  {
    hide Inv;
    if step.WriteCAStatus? {
      HeldBy(s, step.w);
      CurrentCA(s, s.workers[step.w].key, s.workers[step.w].ca);
    }
  }

  /** A worker gets to hold a created secret in one way only. */
  lemma Creates(s: State, step: Step, w: nat)
    requires Next(s, step).Some? && w < |s.workers| == |Next(s, step).value.workers|
    requires Next(s, step).value.workers[w].CACreated?
    ensures
      var x := Next(s, step).value.workers[w];
      x == s.workers[w] || OwnSecret(Next(s, step).value, x.key, x.ca)
  {
  }

  lemma SameWorkers(s: State, step: Step)
    requires Next(s, step).Some?
    ensures |Next(s, step).value.workers| == |s.workers|
  {
  }

  lemma StepCASafe(s: State, step: Step, k: Key, name: string)
    requires Inv(s) && CASafe(s, k, name) && Next(s, step).Some? && SparesCA(s, step, k, name)
    ensures CASafe(Next(s, step).value, k, name)
  {
    hide Inv, Next;
    var t := Next(s, step).value;
    SameWorkers(s, step);
    if k in t.cas && t.cas[k].ready && t.cas[k].secretName == name {
      BecomesReady(s, step, k);
      OwnKept(s, step, k, t.cas[k]);
    }
    forall w | 0 <= w < |t.workers| && t.workers[w].CACreated? && t.workers[w].key == k
      ensures t.workers[w].ca.secretName == name ==> OwnSecret(t, k, t.workers[w].ca)
    {
      Creates(s, step, w);
      if t.workers[w] == s.workers[w] && t.workers[w].ca.secretName == name { OwnKept(s, step, k, t.workers[w].ca); }
    }
  }

  lemma {:induction false} RunCASafe(s: State, steps: seq<Step>, k: Key, name: string)
    requires Inv(s) && CASafe(s, k, name) && Run(s, steps).Some? && RunSparesCA(s, steps, k, name)
    ensures CASafe(Run(s, steps).value, k, name)
  {
    hide Inv, CASafe, Next, SparesCA;
    if steps != [] {
      var init := steps[..|steps| - 1];
      RunCASafe(s, init, k, name);
      RunInv(s, init);
      StepCASafe(Run(s, init).value, steps[|steps| - 1], k, name);
    }
  }

  /**
    In every run with any number of workers, under arbitrarily stale cached reads and whatever users do
    to everything else: a Ready CA names a secret that the controller created for it, unless somebody
    edited the CA while it was Ready or deleted that secret.
  */
  lemma {:induction false} ReadyCASecured(workers: nat, steps: seq<Step>, k: Key)
    requires Run(Initial(workers), steps).Some?
    requires
      var s := Run(Initial(workers), steps).value;
      k in s.cas && s.cas[k].ready && RunSparesCA(Initial(workers), steps, k, s.cas[k].secretName)
    ensures
      var s := Run(Initial(workers), steps).value;
      OwnSecret(s, k, s.cas[k])
  {
    hide Inv, Run, RunSparesCA;
    InitialInv(workers);
    RunCASafe(Initial(workers), steps, k, Run(Initial(workers), steps).value.cas[k].secretName);
  }

  // ---------------------------------------------------------------- a Ready CA stays as it is

  /** The step does not edit or delete CA k while it is Ready. */
  predicate KeepsCA(s: State, step: Step, k: Key) {
    (step.EditCA? || step.DeleteCA?) && step.key == k ==> !(k in s.cas && s.cas[k].ready)
  }

  lemma ReadyStep(s: State, step: Step, k: Key)
    requires Inv(s) && k in s.cas && s.cas[k].ready && Next(s, step).Some? && KeepsCA(s, step, k)
    ensures k in Next(s, step).value.cas && Next(s, step).value.cas[k] == s.cas[k]
  {
    hide Inv;
    if step.WriteCAStatus? {
      HeldBy(s, step.w);
      CurrentCA(s, s.workers[step.w].key, s.workers[step.w].ca);
    }
  }

  predicate RunKeepsCA(s: State, steps: seq<Step>, k: Key) {
    steps != [] ==>
      var before := Run(s, steps[..|steps| - 1]);
      RunKeepsCA(s, steps[..|steps| - 1], k) && (before.Some? ==> KeepsCA(before.value, steps[|steps| - 1], k))
  }

  /** Once a CA is Ready, it stays as it is until somebody edits or deletes that very CA. */
  lemma {:induction false} ReadyStays(s: State, steps: seq<Step>, k: Key)
    requires Inv(s) && k in s.cas && s.cas[k].ready && Run(s, steps).Some? && RunKeepsCA(s, steps, k)
    ensures k in Run(s, steps).value.cas && Run(s, steps).value.cas[k] == s.cas[k]
  {
    hide Inv, Next, KeepsCA;
    if steps != [] {
      var init := steps[..|steps| - 1];
      ReadyStays(s, init, k);
      RunInv(s, init);
      ReadyStep(Run(s, init).value, steps[|steps| - 1], k);
    }
  }

  // ---------------------------------------------------------------- a Ready node carries its CA's certificate

  /** CA k is Ready, and the secret of that name is its own and carries the certificate crt. */
  predicate Certifies(s: State, k: Key, crt: string) {
    && k in s.cas && s.cas[k].ready && OwnSecret(s, k, s.cas[k])
    && EntryOf(s.secrets[SecretKey(k, s.cas[k].secretName)], "ca.crt") == crt
  }

  /** Node k has a secret of its own that carries the certificate of its Ready CA. */
  predicate NodeSecured(s: State, k: Key, n: Node) {
    var sk := SecretKey(k, n.secretName);
    && sk in s.secrets && s.secrets[sk].origin == FromNode(k)
    && Certifies(s, n.ca, EntryOf(s.secrets[sk], "ca.crt"))
  }

  /**
    The step leaves node k alone while it is Ready and never deletes a secret created for it, leaves CA j
    alone while it is Ready, and never deletes a secret of the CA's name.
  */
  predicate SparesNode(s: State, step: Step, k: Key, j: Key, name: string) {
    && (step.EditNode? && step.key == k ==> !(k in s.nodes && s.nodes[k].state.Ready?))
    && (step.DeleteSecret? && step.key in s.secrets ==> s.secrets[step.key].origin != FromNode(k))
    && KeepsCA(s, step, j)
    && step != DeleteSecret(SecretKey(j, name))
  }

  predicate RunSparesNode(s: State, steps: seq<Step>, k: Key, j: Key, name: string) {
    steps != [] ==>
      var before := Run(s, steps[..|steps| - 1]);
      && RunSparesNode(s, steps[..|steps| - 1], k, j, name)
      && (before.Some? ==> SparesNode(before.value, steps[|steps| - 1], k, j, name))
  }

  /** A Ready copy of CA j is the current one, and so is every secret of that name that was ever seen. */
  ghost predicate Settled(s: State, j: Key, name: string) {
    && (forall c | (j, c) in s.casSeen && c.ready :: j in s.cas && s.cas[j] == c)
    && (forall x | (SecretKey(j, name), x) in s.secretsSeen ::
          SecretKey(j, name) in s.secrets && s.secrets[SecretKey(j, name)] == x)
  }

  /** CA j is Ready, and if it is called `name`, its own secret carries the certificate. */
  predicate Vouches(s: State, j: Key, name: string, crt: string) {
    j in s.cas && s.cas[j].ready && (s.cas[j].secretName == name ==> Certifies(s, j, crt))
  }

  /** Node copy n has a secret of its own with a certificate that its CA vouches for. */
  predicate NodeVouched(s: State, k: Key, n: Node, name: string) {
    var sk := SecretKey(k, n.secretName);
    && sk in s.secrets && s.secrets[sk].origin == FromNode(k)
    && Vouches(s, n.ca, name, EntryOf(s.secrets[sk], "ca.crt"))
  }

  predicate WorkerSafe(s: State, x: Worker, k: Key, j: Key, name: string) {
    && (x.NodeSigned? && x.key == k && x.node.ca == j ==> Vouches(s, j, name, x.crt))
    && (x.NodeCreated? && x.key == k && x.node.ca == j ==> NodeVouched(s, k, x.node, name))
  }

  ghost predicate NodeSafe(s: State, k: Key, j: Key, name: string) {
    && CASafe(s, j, name) && Settled(s, j, name)
    && (k in s.nodes && s.nodes[k].state.Ready? && s.nodes[k].ca == j ==> NodeVouched(s, k, s.nodes[k], name))
    && forall w | 0 <= w < |s.workers| :: WorkerSafe(s, s.workers[w], k, j, name)
  }

  lemma VouchesKept(s: State, step: Step, j: Key, name: string, crt: string)
    requires Inv(s) && Next(s, step).Some? && Vouches(s, j, name, crt)
    requires KeepsCA(s, step, j) && step != DeleteSecret(SecretKey(j, name))
    ensures Vouches(Next(s, step).value, j, name, crt)
  {
    hide Inv, Next;
    ReadyStep(s, step, j);
    if s.cas[j].secretName == name { SecretStep(s, step, SecretKey(j, name)); }
  }

  lemma NodeVouchedKept(s: State, step: Step, k: Key, n: Node, name: string)
    requires Inv(s) && Next(s, step).Some? && NodeVouched(s, k, n, name) && SparesNode(s, step, k, n.ca, name)
    ensures NodeVouched(Next(s, step).value, k, n, name)
  {
    hide Inv, Next, Vouches;
    SecretStep(s, step, SecretKey(k, n.secretName));
    VouchesKept(s, step, n.ca, name, EntryOf(s.secrets[SecretKey(k, n.secretName)], "ca.crt"));
  }

  lemma SeenSecret(s: State, step: Step, sk: Key, x: Secret)
    requires Next(s, step).Some? && (sk, x) in Next(s, step).value.secretsSeen
    ensures
      var t := Next(s, step).value;
      (sk, x) in s.secretsSeen || (sk in t.secrets && t.secrets[sk] == x && sk !in s.secrets)
  {
  }

  lemma SeenCA(s: State, step: Step, j: Key, c: CA)
    requires Next(s, step).Some? && (j, c) in Next(s, step).value.casSeen
    ensures
      var t := Next(s, step).value;
      (j, c) in s.casSeen || (j in t.cas && t.cas[j] == c)
  {
  }

  lemma StepSettled(s: State, step: Step, j: Key, name: string)
    requires Inv(s) && Settled(s, j, name) && Next(s, step).Some?
    requires KeepsCA(s, step, j) && step != DeleteSecret(SecretKey(j, name))
    ensures Settled(Next(s, step).value, j, name)
  {
    hide Inv, Next;
    var t, sk := Next(s, step).value, SecretKey(j, name);
    forall c | (j, c) in t.casSeen && c.ready ensures j in t.cas && t.cas[j] == c {
      SeenCA(s, step, j, c);
      if (j, c) in s.casSeen { ReadyStep(s, step, j); }
    }
    forall x | (sk, x) in t.secretsSeen ensures sk in t.secrets && t.secrets[sk] == x {
      SeenSecret(s, step, sk, x);
      if (sk, x) in s.secretsSeen { SecretStep(s, step, sk); }
    }
  }

  /** A worker gets to sign in one way only. */
  lemma Signs(s: State, step: Step, w: nat)
    requires Next(s, step).Some? && w < |s.workers| == |Next(s, step).value.workers|
    requires Next(s, step).value.workers[w].NodeSigned? && Next(s, step).value.workers[w] != s.workers[w]
    ensures
      var x := Next(s, step).value.workers[w];
      && step.ReadCASecret? && s.workers[w].NodeCA? && s.workers[w].node == x.node
      && (SecretKey(x.node.ca, s.workers[w].ca.secretName), step.cachedSecret) in s.secretsSeen
      && x.crt == EntryOf(step.cachedSecret, "ca.crt")
  {
  }

  /** And to hold a created node secret, which carries the certificate that it signed with. */
  lemma CreatesNode(s: State, step: Step, w: nat)
    requires Next(s, step).Some? && w < |s.workers| == |Next(s, step).value.workers|
    requires Next(s, step).value.workers[w].NodeCreated? && Next(s, step).value.workers[w] != s.workers[w]
    ensures
      var t := Next(s, step).value;
      var x := t.workers[w];
      var sk := SecretKey(x.key, x.node.secretName);
      && s.workers[w].NodeSigned? && s.workers[w].key == x.key && s.workers[w].node == x.node
      && sk in t.secrets && t.secrets[sk].origin == FromNode(x.key)
      && EntryOf(t.secrets[sk], "ca.crt") == s.workers[w].crt
  {
  }

  /** What a worker reads with a Ready CA is what that CA vouches for. */
  lemma ReadVouched(s: State, w: nat, j: Key, name: string, x: Secret)
    requires Inv(s) && CASafe(s, j, name) && Settled(s, j, name)
    requires w < |s.workers| && s.workers[w].NodeCA? && s.workers[w].node.ca == j
    requires (SecretKey(j, s.workers[w].ca.secretName), x) in s.secretsSeen
    ensures Vouches(s, j, name, EntryOf(x, "ca.crt"))
  {
    HeldBy(s, w);
  }

  lemma StepWorkerSafe(s: State, step: Step, k: Key, j: Key, name: string, w: nat)
    requires Inv(s) && NodeSafe(s, k, j, name) && Next(s, step).Some? && SparesNode(s, step, k, j, name)
    requires w < |s.workers| == |Next(s, step).value.workers|
    ensures WorkerSafe(Next(s, step).value, Next(s, step).value.workers[w], k, j, name)
  {
    hide Inv, Next, CASafe, Settled, Vouches;
    var t := Next(s, step).value;
    var x := t.workers[w];
    assert WorkerSafe(s, s.workers[w], k, j, name);
    if x.NodeSigned? && x.key == k && x.node.ca == j {
      if x != s.workers[w] {
        Signs(s, step, w);
        ReadVouched(s, w, j, name, step.cachedSecret);
      }
      VouchesKept(s, step, j, name, x.crt);
    }
    if x.NodeCreated? && x.key == k && x.node.ca == j {
      if x == s.workers[w] {
        NodeVouchedKept(s, step, k, x.node, name);
      } else {
        CreatesNode(s, step, w);
        VouchesKept(s, step, j, name, s.workers[w].crt);
      }
    }
  }

  lemma CAStepNodes(s: State, step: Step)
    requires CAStep(s, step).Some?
    ensures CAStep(s, step).value.nodes == s.nodes
  {
  }

  lemma EnvNodes(s: State, step: Step, k: Key)
    requires EnvStep(s, step).Some? && k in EnvStep(s, step).value.nodes
    ensures
      var n := EnvStep(s, step).value.nodes[k];
      || (k in s.nodes && n == s.nodes[k])
      || (k in s.nodes && step.EditNode? && step.key == k && n.state == s.nodes[k].state)
      || (k !in s.nodes && step.AddNode? && step.key == k && n.state == Creating)
  {
  }

  lemma NodeStepNodes(s: State, step: Step, k: Key)
    requires NodeStep(s, step).Some? && k in NodeStep(s, step).value.nodes
    ensures
      var n := NodeStep(s, step).value.nodes[k];
      && k in s.nodes
      && (|| n == s.nodes[k]
          || (&& n == s.nodes[k].(state := n.state, version := s.clock)
              && (if n.state.Ready? then step.WriteNodeStatus? else step.MissCASecret? && n.state == Failed)
              && step.w < |s.workers|
              && (if n.state.Ready? then s.workers[step.w].NodeCreated? else s.workers[step.w].NodeCA?)
              && s.workers[step.w].key == k && s.workers[step.w].node.version == s.nodes[k].version))
  {
  }

  /** A node becomes Ready in one way only: the worker that created its secret reports the copy it read. */
  lemma NodeBecomesReady(s: State, step: Step, k: Key)
    requires Inv(s) && Next(s, step).Some?
    requires k in Next(s, step).value.nodes && Next(s, step).value.nodes[k].state.Ready?
    ensures
      var n := Next(s, step).value.nodes[k];
      || (k in s.nodes && s.nodes[k] == n)
      || (step.EditNode? && step.key == k && k in s.nodes && s.nodes[k].state.Ready?)
      || (step.WriteNodeStatus? && step.w < |s.workers| && s.workers[step.w].NodeCreated? && s.workers[step.w].key == k
          && s.workers[step.w].node.secretName == n.secretName && s.workers[step.w].node.ca == n.ca)
  {
    hide Inv, EnvStep, CAStep, NodeStep;
    if step.Abort? {
    } else if EnvStep(s, step).Some? {
      EnvNodes(s, step, k);
    } else if CAStep(s, step).Some? {
      CAStepNodes(s, step);
    } else {
      NodeStepNodes(s, step, k);
      if Next(s, step).value.nodes[k] != s.nodes[k] {
        HeldBy(s, step.w);
        CurrentNode(s, k, s.workers[step.w].node);
      }
    }
  }

  lemma VouchedCopy(s: State, k: Key, n: Node, m: Node, name: string)
    requires NodeVouched(s, k, n, name) && n.secretName == m.secretName && n.ca == m.ca
    ensures NodeVouched(s, k, m, name)
  {
  }

  lemma StepReadyNode(s: State, step: Step, k: Key, j: Key, name: string)
    requires Inv(s) && NodeSafe(s, k, j, name) && Next(s, step).Some? && SparesNode(s, step, k, j, name)
    requires
      var t := Next(s, step).value;
      k in t.nodes && t.nodes[k].state.Ready? && t.nodes[k].ca == j
    ensures NodeVouched(Next(s, step).value, k, Next(s, step).value.nodes[k], name)
  {
    hide Inv, Next, CASafe, Settled, Vouches, NodeVouched;
    var n := Next(s, step).value.nodes[k];
    NodeBecomesReady(s, step, k);
    if k in s.nodes && s.nodes[k] == n {
      NodeVouchedKept(s, step, k, n, name);
    } else {
      var x := s.workers[step.w];
      assert WorkerSafe(s, x, k, j, name);
      NodeVouchedKept(s, step, k, x.node, name);
      VouchedCopy(Next(s, step).value, k, x.node, n, name);
    }
  }

  lemma StepNodeSafe(s: State, step: Step, k: Key, j: Key, name: string)
    requires Inv(s) && NodeSafe(s, k, j, name) && Next(s, step).Some? && SparesNode(s, step, k, j, name)
    ensures NodeSafe(Next(s, step).value, k, j, name)
  {
    hide Inv, Next, CASafe, Settled, NodeVouched, WorkerSafe;
    var t := Next(s, step).value;
    SameWorkers(s, step);
    StepCASafe(s, step, j, name);
    StepSettled(s, step, j, name);
    if k in t.nodes && t.nodes[k].state.Ready? && t.nodes[k].ca == j { StepReadyNode(s, step, k, j, name); }
    forall w | 0 <= w < |t.workers| ensures WorkerSafe(t, t.workers[w], k, j, name) {
      StepWorkerSafe(s, step, k, j, name, w);
    }
  }

  lemma {:induction false} RunNodeSafe(s: State, steps: seq<Step>, k: Key, j: Key, name: string)
    requires Inv(s) && NodeSafe(s, k, j, name) && Run(s, steps).Some? && RunSparesNode(s, steps, k, j, name)
    ensures NodeSafe(Run(s, steps).value, k, j, name)
  {
    hide Inv, NodeSafe, Next, SparesNode;
    if steps != [] {
      var init := steps[..|steps| - 1];
      RunNodeSafe(s, init, k, j, name);
      RunInv(s, init);
      StepNodeSafe(Run(s, init).value, steps[|steps| - 1], k, j, name);
    }
  }

  /**
    In every run, whatever users do to other objects: a Ready node has a secret that the controller created
    for it and that carries the certificate of its CA, which is Ready and has its own secret, unless
    somebody edited the node or touched the CA while they were Ready or deleted one of the two secrets.
  */
  lemma {:induction false} ReadyNodeSecured(workers: nat, steps: seq<Step>, k: Key, name: string)
    requires Run(Initial(workers), steps).Some?
    requires
      var s := Run(Initial(workers), steps).value;
      && k in s.nodes && s.nodes[k].state.Ready?
      && (s.nodes[k].ca in s.cas ==> s.cas[s.nodes[k].ca].secretName == name)
      && RunSparesNode(Initial(workers), steps, k, s.nodes[k].ca, name)
    ensures
      var s := Run(Initial(workers), steps).value;
      NodeSecured(s, k, s.nodes[k])
  {
    hide Inv, Run, RunSparesNode;
    InitialInv(workers);
    RunNodeSafe(Initial(workers), steps, k, Run(Initial(workers), steps).value.nodes[k].ca, name);
  }

  // ---------------------------------------------------------------- where every secret comes from

  /** The step makes the secret x of CA k: private key and certificate, each under its own name. */
  predicate MakesCASecret(s: State, step: Step, k: Key, sk: Key, x: Secret) {
    && step.CreateCASecret? && step.w < |s.workers| && s.workers[step.w].CARead? && s.workers[step.w].key == k
    && sk == (k.0, s.workers[step.w].ca.secretName) && sk !in s.secrets
    && x.origin == FromCA(k) && x.data.Keys == {"ca.key", "ca.crt"}
    && x.data["ca.key"] == step.caKey && x.data["ca.crt"] == step.caCrt
  }

  /** The step makes the secret x of node k, with the CA certificate that its worker signed with. */
  predicate MakesNodeSecret(s: State, step: Step, k: Key, sk: Key, x: Secret) {
    && step.CreateNodeSecret? && step.w < |s.workers| && s.workers[step.w].NodeSigned? && s.workers[step.w].key == k
    && sk == (k.0, s.workers[step.w].node.secretName) && sk !in s.secrets
    && x.origin == FromNode(k) && x.data.Keys == {"ca.crt", "host.crt", "host.key"}
    && x.data["host.key"] == step.hostKey && x.data["host.crt"] == step.hostCrt
    && x.data["ca.crt"] == s.workers[step.w].crt
  }

  predicate MakesSecret(s: State, step: Step, sk: Key, x: Secret) {
    match x.origin
    case User => step == AddSecret(sk, x.data)
    case FromCA(k) => MakesCASecret(s, step, k, sk, x)
    case FromNode(k) => MakesNodeSecret(s, step, k, sk, x)
  }

  /** A secret is seen for the first time in the step that makes it. */
  lemma StepMakes(s: State, step: Step, sk: Key, x: Secret)
    requires Next(s, step).Some? && (sk, x) in Next(s, step).value.secretsSeen && (sk, x) !in s.secretsSeen
    ensures MakesSecret(s, step, sk, x)
  {
    hide EnvStep, CAStep, NodeStep, MakesSecret;
    if step.Abort? {
    } else if EnvStep(s, step).Some? {
      EnvMakes(s, step, sk, x);
    } else if CAStep(s, step).Some? {
      CAMakes(s, step, sk, x);
    } else {
      NodeMakes(s, step, sk, x);
    }
  }

  lemma EnvMakes(s: State, step: Step, sk: Key, x: Secret)
    requires EnvStep(s, step).Some? && (sk, x) in EnvStep(s, step).value.secretsSeen && (sk, x) !in s.secretsSeen
    ensures MakesSecret(s, step, sk, x)
  {
  }

  lemma CAMakes(s: State, step: Step, sk: Key, x: Secret)
    requires CAStep(s, step).Some? && (sk, x) in CAStep(s, step).value.secretsSeen && (sk, x) !in s.secretsSeen
    ensures MakesSecret(s, step, sk, x)
  {
  }

  lemma NodeMakes(s: State, step: Step, sk: Key, x: Secret)
    requires NodeStep(s, step).Some? && (sk, x) in NodeStep(s, step).value.secretsSeen && (sk, x) !in s.secretsSeen
    ensures MakesSecret(s, step, sk, x)
  {
  }

  /** Step i of the run makes the secret. */
  predicate MadeAt(s: State, steps: seq<Step>, sk: Key, x: Secret, i: nat)
    requires i < |steps|
  {
    Run(s, steps[..i]).Some? && MakesSecret(Run(s, steps[..i]).value, steps[i], sk, x)
  }

  /**
    In every run, every secret that was ever seen was made by one of its steps: a CA's secret holds exactly
    the private key and the certificate of a Create for that CA, each under its own name; a node's secret
    those of a Create for that node, and the CA certificate that the worker signed with.
  */
  lemma {:induction false} EverySecretMade(workers: nat, steps: seq<Step>, sk: Key, x: Secret) returns (i: nat)
    requires Run(Initial(workers), steps).Some? && (sk, x) in Run(Initial(workers), steps).value.secretsSeen
    ensures i < |steps| && MadeAt(Initial(workers), steps, sk, x, i)
  {
    hide Next, MakesSecret;
    var init := steps[..|steps| - 1];
    var s := Run(Initial(workers), init).value;
    if (sk, x) in s.secretsSeen {
      i := EverySecretMade(workers, init, sk, x);
      assert init[..i] == steps[..i];
    } else {
      i := |steps| - 1;
      StepMakes(s, steps[i], sk, x);
    }
  }

  /** The step reads secret x under the name of the CA copy that worker w holds, to sign node copy n of k with it. */
  predicate ReadsFor(s: State, step: Step, w: nat, k: Key, n: Node, x: Secret) {
    && step == ReadCASecret(w, x) && w < |s.workers| && s.workers[w].NodeCA?
    && s.workers[w].key == k && s.workers[w].node == n
    && ((n.ca.0, s.workers[w].ca.secretName), x) in s.secretsSeen
  }

  predicate ReadAt(s: State, steps: seq<Step>, w: nat, k: Key, n: Node, x: Secret, i: nat)
    requires i < |steps|
  {
    Run(s, steps[..i]).Some? && ReadsFor(Run(s, steps[..i]).value, steps[i], w, k, n, x)
  }

  lemma SignsFor(s: State, step: Step, w: nat) returns (x: Secret)
    requires Next(s, step).Some? && w < |s.workers| == |Next(s, step).value.workers|
    requires Next(s, step).value.workers[w].NodeSigned? && Next(s, step).value.workers[w] != s.workers[w]
    ensures
      var y := Next(s, step).value.workers[w];
      ReadsFor(s, step, w, y.key, y.node, x) && y.crt == EntryOf(x, "ca.crt")
  {
    x := step.cachedSecret;
  }

  /** What a worker signs with is the certificate of a secret that it read under the name of the node's CA. */
  lemma {:induction false} EverySignatureRead(workers: nat, steps: seq<Step>, w: nat) returns (i: nat, x: Secret)
    requires
      var s := Run(Initial(workers), steps);
      s.Some? && w < |s.value.workers| && s.value.workers[w].NodeSigned?
    ensures
      var y := Run(Initial(workers), steps).value.workers[w];
      i < |steps| && ReadAt(Initial(workers), steps, w, y.key, y.node, x, i) && y.crt == EntryOf(x, "ca.crt")
  {
    hide Next, ReadsFor;
    var init := steps[..|steps| - 1];
    var s := Run(Initial(workers), init).value;
    var y := Run(Initial(workers), steps).value.workers[w];
    SameWorkers(s, steps[|steps| - 1]);
    if s.workers[w] == y {
      i, x := EverySignatureRead(workers, init, w);
      assert init[..i] == steps[..i];
    } else {
      i := |steps| - 1;
      x := SignsFor(s, steps[i], w);
    }
  }

  /**
    The ca.crt of a Ready node is, under the conditions of ReadyNodeSecured, the certificate that some
    Create of the run stored for the node's CA.
  */
  lemma {:induction false} ReadyNodeCertificate(workers: nat, steps: seq<Step>, k: Key, name: string) returns (i: nat)
    requires Run(Initial(workers), steps).Some?
    requires
      var s := Run(Initial(workers), steps).value;
      && k in s.nodes && s.nodes[k].state.Ready?
      && (s.nodes[k].ca in s.cas ==> s.cas[s.nodes[k].ca].secretName == name)
      && RunSparesNode(Initial(workers), steps, k, s.nodes[k].ca, name)
    ensures
      var s := Run(Initial(workers), steps).value;
      var sk := (k.0, s.nodes[k].secretName);
      && i < |steps| && steps[i].CreateCASecret? && Run(Initial(workers), steps[..i]).Some?
      && sk in s.secrets && "ca.crt" in s.secrets[sk].data && s.secrets[sk].data["ca.crt"] == steps[i].caCrt
      && var before := Run(Initial(workers), steps[..i]).value;
         steps[i].w < |before.workers| && before.workers[steps[i].w].CARead?
         && before.workers[steps[i].w].key == s.nodes[k].ca
  {
    hide Inv, Next, RunSparesNode, Run;
    var s := Run(Initial(workers), steps).value;
    ReadyNodeSecured(workers, steps, k, name);
    InitialInv(workers);
    RunInv(Initial(workers), steps);
    var j := s.nodes[k].ca;
    var sk, ck := SecretKey(k, s.nodes[k].secretName), SecretKey(j, s.cas[j].secretName);
    SeenCurrent(s, sk);
    SeenCurrent(s, ck);
    var h := EverySecretMade(workers, steps, sk, s.secrets[sk]);
    i := EverySecretMade(workers, steps, ck, s.secrets[ck]);
  }

  // ---------------------------------------------------------------- what a status says

  /** The state of a node changes only by an addition, by a report of success, or by a missing CA secret. */
  lemma NodeStateStep(s: State, step: Step, k: Key)
    requires Inv(s) && Next(s, step).Some? && k in Next(s, step).value.nodes
    requires k !in s.nodes || Next(s, step).value.nodes[k].state != s.nodes[k].state
    ensures
      var state := Next(s, step).value.nodes[k].state;
      && (k !in s.nodes ==> step.AddNode? && step.key == k && state == Creating)
      && (k in s.nodes ==>
            || (step.WriteNodeStatus? && state == Ready && s.workers[step.w] == NodeCreated(k, s.nodes[k]))
            || (step.MissCASecret? && state == Failed && s.workers[step.w].NodeCA? && s.workers[step.w].key == k
                && s.workers[step.w].node == s.nodes[k]))
  {
    hide Inv, EnvStep, CAStep, NodeStep;
    if step.Abort? {
    } else if EnvStep(s, step).Some? {
      EnvNodes(s, step, k);
    } else if CAStep(s, step).Some? {
      CAStepNodes(s, step);
    } else {
      NodeStepNodes(s, step, k);
      HeldBy(s, step.w);
      CurrentNode(s, k, s.workers[step.w].node);
    }
  }

  // ---------------------------------------------------------------- a lost status write

  /** The secret of CA k exists, but nobody is left who could report it. */
  predicate Stuck(s: State, k: Key) {
    && k in s.cas && !s.cas[k].ready && SecretKey(k, s.cas[k].secretName) in s.secrets
    && forall w | 0 <= w < |s.workers| && s.workers[w].CACreated? && s.workers[w].key == k ::
         s.workers[w].ca.version != s.cas[k].version
  }

  /** A user edits or deletes CA k, or deletes its secret. */
  predicate TouchesCA(step: Step, k: Key, name: string) {
    ((step.EditCA? || step.DeleteCA?) && step.key == k) || step == DeleteSecret(SecretKey(k, name))
  }

  predicate LeavesCA(steps: seq<Step>, k: Key, name: string) {
    forall i | 0 <= i < |steps| :: !TouchesCA(steps[i], k, name)
  }

  /** A stuck CA is not reported by any worker. */
  lemma StuckUnreported(s: State, step: Step, k: Key)
    requires Stuck(s, k) && Next(s, step).Some? && !TouchesCA(step, k, s.cas[k].secretName)
    ensures k in Next(s, step).value.cas && Next(s, step).value.cas[k] == s.cas[k]
  {
  }

  /** No worker comes to hold the current copy of a stuck CA with a created secret. */
  lemma StuckUncreated(s: State, step: Step, k: Key, w: nat)
    requires Inv(s) && Stuck(s, k) && Next(s, step).Some? && w < |s.workers| == |Next(s, step).value.workers|
    requires
      var x := Next(s, step).value.workers[w];
      x.CACreated? && x.key == k && x != s.workers[w]
    ensures Next(s, step).value.workers[w].ca.version != s.cas[k].version
  {
    hide Inv;
    HeldBy(s, w);
    CurrentCA(s, k, Next(s, step).value.workers[w].ca);
  }

  /** Only an edit or a deletion of the CA, or a deletion of its secret, can unblock a stuck CA. */
  lemma StuckStep(s: State, step: Step, k: Key)
    requires Inv(s) && Stuck(s, k) && Next(s, step).Some? && !TouchesCA(step, k, s.cas[k].secretName)
    ensures Stuck(Next(s, step).value, k) && Next(s, step).value.cas[k] == s.cas[k]
  {
    hide Inv, Next;
    var t := Next(s, step).value;
    SameWorkers(s, step);
    StuckUnreported(s, step, k);
    SecretStep(s, step, SecretKey(k, s.cas[k].secretName));
    forall w | 0 <= w < |t.workers| && t.workers[w].CACreated? && t.workers[w].key == k
      ensures t.workers[w].ca.version != t.cas[k].version
    {
      if t.workers[w] != s.workers[w] { StuckUncreated(s, step, k, w); }
    }
  }

  /**
    If the status write after a successful Create is lost, the CA stays unready in every continuation,
    whatever happens to anything but the CA and its secret: every retry fails at the Create.
  */
  lemma {:induction false} StuckForever(s: State, steps: seq<Step>, k: Key)
    requires Inv(s) && Stuck(s, k) && Run(s, steps).Some? && LeavesCA(steps, k, s.cas[k].secretName)
    ensures Stuck(Run(s, steps).value, k) && Run(s, steps).value.cas[k] == s.cas[k]
  {
    hide Inv, Next, Stuck;
    if steps != [] {
      var init := steps[..|steps| - 1];
      StuckForever(s, init, k);
      RunInv(s, init);
      StuckStep(Run(s, init).value, steps[|steps| - 1], k);
    }
  }

  // ---------------------------------------------------------------- building runs

  predicate ByWorker(step: Step) {
    || step.StartCA? || step.CreateCASecret? || step.WriteCAStatus? || step.StartNode? || step.ReadNodeCA?
    || step.ReadCASecret? || step.CreateNodeSecret? || step.WriteNodeStatus? || step.Abort?
  }

  /** A run of worker steps alone that leads from s to t. */
  predicate Works(s: State, steps: seq<Step>, t: State) {
    Run(s, steps) == Some(t) && forall i | 0 <= i < |steps| :: ByWorker(steps[i])
  }

  lemma NoWork(s: State)
    ensures Works(s, [], s)
  {
  }

  lemma WorksSnoc(s: State, steps: seq<Step>, t: State, step: Step, u: State)
    requires Works(s, steps, t) && Next(t, step) == Some(u) && ByWorker(step)
    ensures Works(s, steps + [step], u)
  {
    hide Next;
    assert (steps + [step])[..|steps|] == steps;
  }

  lemma {:induction false} RunConcat(s: State, a: seq<Step>, b: seq<Step>)
    requires Run(s, a).Some?
    ensures Run(s, a + b) == Run(Run(s, a).value, b)
  {
    hide Next;
    if b == [] {
      assert a + b == a;
    } else {
      assert (a + b)[..|a + b| - 1] == a + b[..|b| - 1];
      RunConcat(s, a, b[..|b| - 1]);
    }
  }

  lemma WriteCAStatusStep(s: State, w: nat, k: Key, ca: CA)
    requires w < |s.workers| && s.workers[w] == CACreated(k, ca) && k in s.cas && s.cas[k].version == ca.version
    ensures
      var t := Become(PutCA(s, k, s.cas[k].(ready := true, version := s.clock)), w, Idle);
      Next(s, WriteCAStatus(w)) == Some(t)
  {
  }

  lemma CreateCASecretStep(s: State, w: nat, k: Key, ca: CA, key: string, crt: string)
    requires w < |s.workers| && s.workers[w] == CARead(k, ca) && SecretKey(k, ca.secretName) !in s.secrets
    ensures Next(s, CreateCASecret(w, key, crt)) == Some(WithCASecret(s, w, k, ca, key, crt))
  {
  }

  function WithCASecret(s: State, w: nat, k: Key, ca: CA, key: string, crt: string): State
    requires w < |s.workers|
  {
    var secret := Secret(FromCA(k), map["ca.key" := key, "ca.crt" := crt]);
    Become(PutSecret(s, SecretKey(k, ca.secretName), secret), w, CACreated(k, ca))
  }

  lemma StartCAStep(s: State, w: nat, k: Key)
    requires w < |s.workers| && s.workers[w].Idle? && k in s.cas && (k, s.cas[k]) in s.casSeen && !s.cas[k].ready
    ensures Next(s, StartCA(w, k, s.cas[k])) == Some(Become(s, w, CARead(k, s.cas[k])))
  {
  }

  lemma AbortStep(s: State, w: nat)
    requires w < |s.workers|
    ensures Next(s, Abort(w)) == Some(Become(s, w, Idle))
  {
  }

  /** A worker that reads the current copy and finds no secret makes the CA Ready. */
  lemma ServesCA(s: State, w: nat, k: Key) returns (steps: seq<Step>, t: State)
    requires w < |s.workers| && k in s.cas && (k, s.cas[k]) in s.casSeen && !s.cas[k].ready
    requires SecretKey(k, s.cas[k].secretName) !in s.secrets
    ensures Works(s, steps, t) && k in t.cas && t.cas[k].ready && t.cas[k].secretName == s.cas[k].secretName
    ensures t.nodes == s.nodes && t.workers == s.workers[w := Idle] && s.secretsSeen <= t.secretsSeen
    ensures
      var secret := Secret(FromCA(k), map["ca.key" := "", "ca.crt" := ""]);
      t.secrets == s.secrets[SecretKey(k, s.cas[k].secretName) := secret]
  {
    hide Next, Works;
    var ca := s.cas[k];
    var s1 := Become(s, w, Idle);
    var s2 := Become(s1, w, CARead(k, ca));
    var s3 := WithCASecret(s2, w, k, ca, "", "");
    t := Become(PutCA(s3, k, s3.cas[k].(ready := true, version := s3.clock)), w, Idle);
    NoWork(s);
    AbortStep(s, w);
    WorksSnoc(s, [], s, Abort(w), s1);
    StartCAStep(s1, w, k);
    WorksSnoc(s, [] + [Abort(w)], s1, StartCA(w, k, ca), s2);
    CreateCASecretStep(s2, w, k, ca, "", "");
    WorksSnoc(s, [] + [Abort(w)] + [StartCA(w, k, ca)], s2, CreateCASecret(w, "", ""), s3);
    WriteCAStatusStep(s3, w, k, ca);
    steps := [] + [Abort(w)] + [StartCA(w, k, ca)] + [CreateCASecret(w, "", "")];
    WorksSnoc(s, steps, s3, WriteCAStatus(w), t);
    steps := steps + [WriteCAStatus(w)];
  }

  /** An unready CA that is not stuck can still become Ready, by the work of one worker. */
  lemma CanBecomeReady(s: State, k: Key) returns (steps: seq<Step>, t: State)
    requires Inv(s) && |s.workers| > 0 && k in s.cas && !s.cas[k].ready && !Stuck(s, k)
    ensures Works(s, steps, t) && k in t.cas && t.cas[k].ready
  {
    hide Next, Works;
    if SecretKey(k, s.cas[k].secretName) in s.secrets {
      var w :| 0 <= w < |s.workers| && s.workers[w].CACreated? && s.workers[w].key == k
               && s.workers[w].ca.version == s.cas[k].version;
      t := Become(PutCA(s, k, s.cas[k].(ready := true, version := s.clock)), w, Idle);
      WriteCAStatusStep(s, w, k, s.workers[w].ca);
      NoWork(s);
      WorksSnoc(s, [], s, WriteCAStatus(w), t);
      steps := [] + [WriteCAStatus(w)];
    } else {
      steps, t := ServesCA(s, 0, k);
    }
  }

  /** The run makes CA k Ready, and nobody touches the CA or its secret. */
  ghost predicate MakesCAReady(s: State, steps: seq<Step>, k: Key)
    requires k in s.cas
  {
    && Run(s, steps).Some? && LeavesCA(steps, k, s.cas[k].secretName)
    && k in Run(s, steps).value.cas && Run(s, steps).value.cas[k].ready
  }

  /** An unready CA can become Ready without being touched exactly when it is not stuck. */
  lemma ReadyExactly(s: State, k: Key)
    requires Inv(s) && |s.workers| > 0 && k in s.cas && !s.cas[k].ready
    ensures (exists steps :: MakesCAReady(s, steps, k)) <==> !Stuck(s, k)
  {
    hide Inv;
    if Stuck(s, k) {
      forall steps ensures !MakesCAReady(s, steps, k) {
        if MakesCAReady(s, steps, k) { StuckForever(s, steps, k); }
      }
    } else {
      var steps, t := CanBecomeReady(s, k);
      assert MakesCAReady(s, steps, k);
    }
  }

  // ---------------------------------------------------------------- the same for nodes

  /** The secret of node k exists, but nobody is left who could report it. */
  predicate NodeStuck(s: State, k: Key) {
    && k in s.nodes && !s.nodes[k].state.Ready? && SecretKey(k, s.nodes[k].secretName) in s.secrets
    && forall w | 0 <= w < |s.workers| && s.workers[w].NodeCreated? && s.workers[w].key == k ::
         s.workers[w].node.version != s.nodes[k].version
  }

  /** A user edits or deletes node k, or deletes its secret. */
  predicate TouchesNode(step: Step, k: Key, name: string) {
    ((step.EditNode? || step.DeleteNode?) && step.key == k) || step == DeleteSecret(SecretKey(k, name))
  }

  predicate LeavesNode(steps: seq<Step>, k: Key, name: string) {
    forall i | 0 <= i < |steps| :: !TouchesNode(steps[i], k, name)
  }

  /** A step leaves a stuck node as it is, or writes another status that is not Ready. */
  lemma NodeStuckUnreported(s: State, step: Step, k: Key)
    requires NodeStuck(s, k) && Next(s, step).Some? && !TouchesNode(step, k, s.nodes[k].secretName)
    ensures
      var t := Next(s, step).value;
      && k in t.nodes && !t.nodes[k].state.Ready? && t.nodes[k].secretName == s.nodes[k].secretName
      && (t.nodes[k] == s.nodes[k] || t.nodes[k].version == s.clock)
  {
  }

  /** No worker comes to hold the current copy of a stuck node with a created secret. */
  lemma NodeStuckUncreated(s: State, step: Step, k: Key, w: nat)
    requires Inv(s) && NodeStuck(s, k) && Next(s, step).Some? && w < |s.workers| == |Next(s, step).value.workers|
    requires
      var x := Next(s, step).value.workers[w];
      x.NodeCreated? && x.key == k && x != s.workers[w]
    ensures
      var n := Next(s, step).value.workers[w].node;
      n.version != s.nodes[k].version && n.version < s.clock
  {
    CreatesNode(s, step, w);
    HeldBy(s, w);
    CurrentNode(s, k, Next(s, step).value.workers[w].node);
    CreatesAbsent(s, step, w);
  }

  /** A worker creates a node secret only where there was none. */
  lemma CreatesAbsent(s: State, step: Step, w: nat)
    requires Next(s, step).Some? && w < |s.workers| == |Next(s, step).value.workers|
    requires Next(s, step).value.workers[w].NodeCreated? && Next(s, step).value.workers[w] != s.workers[w]
    ensures
      var x := Next(s, step).value.workers[w];
      SecretKey(x.key, x.node.secretName) !in s.secrets
  {
  }

  lemma NodeStuckStep(s: State, step: Step, k: Key)
    requires Inv(s) && NodeStuck(s, k) && Next(s, step).Some? && !TouchesNode(step, k, s.nodes[k].secretName)
    ensures NodeStuck(Next(s, step).value, k) && Next(s, step).value.nodes[k].secretName == s.nodes[k].secretName
  {
    hide Inv, Next;
    var t := Next(s, step).value;
    SameWorkers(s, step);
    NodeStuckUnreported(s, step, k);
    SecretStep(s, step, SecretKey(k, s.nodes[k].secretName));
    forall w | 0 <= w < |t.workers| && t.workers[w].NodeCreated? && t.workers[w].key == k
      ensures t.workers[w].node.version != t.nodes[k].version
    {
      if t.workers[w] != s.workers[w] { NodeStuckUncreated(s, step, k, w); } else { HeldPast(s, w); }
    }
  }

  lemma HeldPast(s: State, w: nat)
    requires Inv(s) && w < |s.workers| && s.workers[w].NodeCreated?
    ensures s.workers[w].node.version < s.clock
  {
    HeldBy(s, w);
  }

  /**
    A node whose status write was lost after the Create stays unready in every continuation, whatever
    happens to anything but the node and its secret.
  */
  lemma {:induction false} NodeStuckForever(s: State, steps: seq<Step>, k: Key)
    requires Inv(s) && NodeStuck(s, k) && Run(s, steps).Some? && LeavesNode(steps, k, s.nodes[k].secretName)
    ensures NodeStuck(Run(s, steps).value, k) && Run(s, steps).value.nodes[k].secretName == s.nodes[k].secretName
  {
    hide Inv, Next, NodeStuck;
    if steps != [] {
      var init := steps[..|steps| - 1];
      NodeStuckForever(s, init, k);
      RunInv(s, init);
      NodeStuckStep(Run(s, init).value, steps[|steps| - 1], k);
    }
  }

  lemma WriteNodeStatusStep(s: State, w: nat, k: Key, n: Node)
    requires w < |s.workers| && s.workers[w] == NodeCreated(k, n) && k in s.nodes && s.nodes[k].version == n.version
    ensures
      var t := Become(PutNode(s, k, s.nodes[k].(state := Ready, version := s.clock)), w, Idle);
      Next(s, WriteNodeStatus(w)) == Some(t)
  {
  }

  lemma StartNodeStep(s: State, w: nat, k: Key)
    requires w < |s.workers| && s.workers[w].Idle?
    requires k in s.nodes && (k, s.nodes[k]) in s.nodesSeen && !s.nodes[k].state.Ready?
    ensures Next(s, StartNode(w, k, s.nodes[k])) == Some(Become(s, w, NodeRead(k, s.nodes[k])))
  {
  }

  lemma ReadNodeCAStep(s: State, w: nat, k: Key, n: Node)
    requires w < |s.workers| && s.workers[w] == NodeRead(k, n)
    requires n.ca in s.cas && (n.ca, s.cas[n.ca]) in s.casSeen && s.cas[n.ca].ready
    ensures Next(s, ReadNodeCA(w, s.cas[n.ca])) == Some(Become(s, w, NodeCA(k, n, s.cas[n.ca])))
  {
  }

  lemma ReadCASecretStep(s: State, w: nat, k: Key, n: Node, ca: CA, x: Secret)
    requires w < |s.workers| && s.workers[w] == NodeCA(k, n, ca) && (SecretKey(n.ca, ca.secretName), x) in s.secretsSeen
    ensures Next(s, ReadCASecret(w, x)) == Some(Become(s, w, NodeSigned(k, n, EntryOf(x, "ca.crt"))))
  {
  }

  function WithNodeSecret(s: State, w: nat, k: Key, n: Node, crt: string): State
    requires w < |s.workers|
  {
    var secret := Secret(FromNode(k), map["ca.crt" := crt, "host.crt" := "", "host.key" := ""]);
    Become(PutSecret(s, SecretKey(k, n.secretName), secret), w, NodeCreated(k, n))
  }

  lemma CreateNodeSecretStep(s: State, w: nat, k: Key, n: Node, crt: string)
    requires w < |s.workers| && s.workers[w] == NodeSigned(k, n, crt) && SecretKey(k, n.secretName) !in s.secrets
    ensures Next(s, CreateNodeSecret(w, "", "")) == Some(WithNodeSecret(s, w, k, n, crt))
  {
  }

  /** Node k is unready and has no secret, its CA is Ready, and x is a secret of that name which was once current. */
  predicate Signable(s: State, k: Key, x: Secret) {
    && k in s.nodes && !s.nodes[k].state.Ready? && SecretKey(k, s.nodes[k].secretName) !in s.secrets
    && var ca := s.nodes[k].ca;
       ca in s.cas && s.cas[ca].ready && (SecretKey(ca, s.cas[ca].secretName), x) in s.secretsSeen
  }

  /** A worker then gets as far as creating the node's secret, with the certificate of x. */
  lemma CreatesFor(s: State, w: nat, k: Key, x: Secret) returns (steps: seq<Step>)
    requires Inv(s) && w < |s.workers| && Signable(s, k, x)
    ensures Works(s, steps, WithNodeSecret(s, w, k, s.nodes[k], EntryOf(x, "ca.crt")))
  {
    hide Next, Works;
    var n, crt := s.nodes[k], EntryOf(x, "ca.crt");
    var ca := s.cas[n.ca];
    var s1 := Become(s, w, Idle);
    var s2 := Become(s1, w, NodeRead(k, n));
    var s3 := Become(s2, w, NodeCA(k, n, ca));
    var s4 := Become(s3, w, NodeSigned(k, n, crt));
    NoWork(s);
    AbortStep(s, w);
    WorksSnoc(s, [], s, Abort(w), s1);
    StartNodeStep(s1, w, k);
    WorksSnoc(s, [] + [Abort(w)], s1, StartNode(w, k, n), s2);
    ReadNodeCAStep(s2, w, k, n);
    WorksSnoc(s, [] + [Abort(w)] + [StartNode(w, k, n)], s2, ReadNodeCA(w, ca), s3);
    ReadCASecretStep(s3, w, k, n, ca, x);
    steps := [] + [Abort(w)] + [StartNode(w, k, n)] + [ReadNodeCA(w, ca)];
    WorksSnoc(s, steps, s3, ReadCASecret(w, x), s4);
    steps := steps + [ReadCASecret(w, x)];
    CreateNodeSecretStep(s4, w, k, n, crt);
    WorksSnoc(s, steps, s4, CreateNodeSecret(w, "", ""), WithNodeSecret(s4, w, k, n, crt));
    steps := steps + [CreateNodeSecret(w, "", "")];
    assert WithNodeSecret(s4, w, k, n, crt).workers == s.workers[w := NodeCreated(k, n)];
  }

  // ---------------------------------------------------------------- what users can do for a node

  /** A run of workers and users that leads from s to t and does not touch node k. */
  predicate Helps(s: State, steps: seq<Step>, t: State, k: Key, name: string) {
    Run(s, steps) == Some(t) && LeavesNode(steps, k, name)
  }

  lemma HelpsStep(s: State, step: Step, t: State, k: Key, name: string)
    requires Next(s, step) == Some(t) && !TouchesNode(step, k, name)
    ensures Helps(s, [step], t, k, name)
  {
    hide Next;
    RunSnoc(s, [], s, step, t);
    assert [] + [step] == [step];
  }

  lemma HelpsTrans(s: State, a: seq<Step>, t: State, b: seq<Step>, u: State, k: Key, name: string)
    requires Helps(s, a, t, k, name) && Helps(t, b, u, k, name)
    ensures Helps(s, a + b, u, k, name)
  {
    RunConcat(s, a, b);
  }

  lemma WorksHelps(s: State, steps: seq<Step>, t: State, k: Key, name: string)
    requires Works(s, steps, t)
    ensures Helps(s, steps, t, k, name)
  {
  }

  /** Names and states that have nothing to do with node k. */
  predicate Beside(s: State, t: State, k: Key) {
    && t.nodes == s.nodes && k in s.nodes
    && |t.workers| == |s.workers| && (forall w | 0 < w < |s.workers| :: t.workers[w] == s.workers[w])
    && (SecretKey(k, s.nodes[k].secretName) in t.secrets ==> SecretKey(k, s.nodes[k].secretName) in s.secrets)
  }

  /** Users give the CA of node k a secret name of its own. */
  lemma NamesCA(s: State, k: Key, other: string) returns (steps: seq<Step>, t: State)
    requires k in s.nodes
    ensures Helps(s, steps, t, k, s.nodes[k].secretName) && Beside(s, t, k) && t.secrets == s.secrets
    ensures s.nodes[k].ca in t.cas && t.cas[s.nodes[k].ca].secretName == other
  {
    var j, name := s.nodes[k].ca, s.nodes[k].secretName;
    var ready := j in s.cas && s.cas[j].ready;
    t := PutCA(s, j, CA(other, ready, s.clock));
    var step := if j in s.cas then EditCA(j, other) else AddCA(j, other);
    assert Next(s, step) == Some(t);
    HelpsStep(s, step, t, k, name);
    steps := [step];
  }

  /** Users and a worker make sure that the CA is Ready and has a secret. */
  lemma ReadiesCA(s: State, k: Key, other: string) returns (steps: seq<Step>, t: State)
    requires Inv(s) && |s.workers| > 0 && k in s.nodes && other != s.nodes[k].secretName
    requires s.nodes[k].ca in s.cas && s.cas[s.nodes[k].ca].secretName == other
    ensures Helps(s, steps, t, k, s.nodes[k].secretName) && Beside(s, t, k)
    ensures
      var j := s.nodes[k].ca;
      j in t.cas && t.cas[j].ready && SecretKey(j, t.cas[j].secretName) in t.secrets
  {
    hide Next, Works, Helps;
    var j, name := s.nodes[k].ca, s.nodes[k].secretName;
    var sk := SecretKey(j, other);
    NoHelp(s, k, name);
    steps, t := [], s;
    if s.cas[j].ready {
      if sk !in s.secrets {
        steps, t := [AddSecret(sk, map[])], PutSecret(s, sk, Secret(User, map[]));
        AddSecretStep(s, sk);
        HelpsStep(s, AddSecret(sk, map[]), t, k, name);
      }
    } else {
      if sk in s.secrets {
        steps, t := [DeleteSecret(sk)], s.(secrets := s.secrets - {sk});
        DeleteSecretStep(s, sk);
        HelpsStep(s, DeleteSecret(sk), t, k, name);
      }
      var more, u := ServesCA(t, 0, j);
      WorksHelps(t, more, u, k, name);
      HelpsTrans(s, steps, t, more, u, k, name);
      steps, t := steps + more, u;
    }
  }

  lemma NoHelp(s: State, k: Key, name: string)
    ensures Helps(s, [], s, k, name)
  {
  }

  lemma AddSecretStep(s: State, sk: Key)
    requires sk !in s.secrets
    ensures Next(s, AddSecret(sk, map[])) == Some(PutSecret(s, sk, Secret(User, map[])))
  {
  }

  lemma DeleteSecretStep(s: State, sk: Key)
    requires sk in s.secrets
    ensures Next(s, DeleteSecret(sk)) == Some(s.(secrets := s.secrets - {sk}))
  {
  }

  /** With the help of users, any unready node without a secret gets a secret. */
  lemma GetsSecret(s: State, k: Key) returns (steps: seq<Step>, t: State)
    requires Inv(s) && |s.workers| > 0 && k in s.nodes && !s.nodes[k].state.Ready?
    requires SecretKey(k, s.nodes[k].secretName) !in s.secrets
    ensures Helps(s, steps, t, k, s.nodes[k].secretName) && Inv(t) && |t.workers| > 0
    ensures k in t.nodes && t.nodes[k] == s.nodes[k] && t.workers[0] == NodeCreated(k, s.nodes[k])
    ensures SecretKey(k, s.nodes[k].secretName) in t.secrets
    ensures |t.workers| == |s.workers| && forall w | 0 < w < |s.workers| :: t.workers[w] == s.workers[w]
  {
    hide Next, Works, Helps;
    var n := s.nodes[k];
    var other := n.secretName + "'";
    assert |other| == |n.secretName| + 1;
    var a, named := NamesCA(s, k, other);
    HelpsInv(s, a, named, k, n.secretName);
    var b, ready := ReadiesCA(named, k, other);
    HelpsInv(named, b, ready, k, n.secretName);
    HelpsTrans(s, a, named, b, ready, k, n.secretName);
    var x := ready.secrets[SecretKey(n.ca, ready.cas[n.ca].secretName)];
    SeenCurrent(ready, SecretKey(n.ca, ready.cas[n.ca].secretName));
    var c := CreatesFor(ready, 0, k, x);
    t := WithNodeSecret(ready, 0, k, n, EntryOf(x, "ca.crt"));
    WorksHelps(ready, c, t, k, n.secretName);
    HelpsTrans(s, a + b, ready, c, t, k, n.secretName);
    HelpsInv(s, a + b + c, t, k, n.secretName);
    steps := a + b + c;
  }

  lemma SeenCurrent(s: State, k: Key)
    requires Inv(s) && k in s.secrets
    ensures (k, s.secrets[k]) in s.secretsSeen
  {
  }

  lemma HelpsInv(s: State, steps: seq<Step>, t: State, k: Key, name: string)
    requires Inv(s) && Helps(s, steps, t, k, name)
    ensures Inv(t)
  {
    RunInv(s, steps);
  }

  /** The run makes node k Ready, and nobody touches the node or its secret. */
  ghost predicate MakesNodeReady(s: State, steps: seq<Step>, k: Key)
    requires k in s.nodes
  {
    && Run(s, steps).Some? && LeavesNode(steps, k, s.nodes[k].secretName)
    && k in Run(s, steps).value.nodes && Run(s, steps).value.nodes[k].state.Ready?
  }

  lemma NodeCanBecomeReady(s: State, k: Key) returns (steps: seq<Step>)
    requires Inv(s) && |s.workers| > 0 && k in s.nodes && !s.nodes[k].state.Ready? && !NodeStuck(s, k)
    ensures MakesNodeReady(s, steps, k)
  {
    hide Next, Inv, Helps;
    var n, t, w := s.nodes[k], s, 0;
    if SecretKey(k, n.secretName) in s.secrets {
      w :| 0 <= w < |s.workers| && s.workers[w].NodeCreated? && s.workers[w].key == k
           && s.workers[w].node.version == n.version;
      steps := [];
      NoHelp(s, k, n.secretName);
    } else {
      steps, t := GetsSecret(s, k);
    }
    var u := Become(PutNode(t, k, t.nodes[k].(state := Ready, version := t.clock)), w, Idle);
    WriteNodeStatusStep(t, w, k, t.workers[w].node);
    HelpsStep(t, WriteNodeStatus(w), u, k, n.secretName);
    HelpsTrans(s, steps, t, [WriteNodeStatus(w)], u, k, n.secretName);
    steps := steps + [WriteNodeStatus(w)];
    HelpsRun(s, steps, u, k, n.secretName);
  }

  lemma HelpsRun(s: State, steps: seq<Step>, t: State, k: Key, name: string)
    requires Helps(s, steps, t, k, name)
    ensures Run(s, steps) == Some(t) && LeavesNode(steps, k, name)
  {
  }

  /** An unready node can become Ready without being touched exactly when it is not stuck. */
  lemma NodeReadyExactly(s: State, k: Key)
    requires Inv(s) && |s.workers| > 0 && k in s.nodes && !s.nodes[k].state.Ready?
    ensures (exists steps :: MakesNodeReady(s, steps, k)) <==> !NodeStuck(s, k)
  {
    hide Inv;
    if NodeStuck(s, k) {
      forall steps ensures !MakesNodeReady(s, steps, k) {
        if MakesNodeReady(s, steps, k) { NodeStuckForever(s, steps, k); }
      }
    } else {
      var steps := NodeCanBecomeReady(s, k);
    }
  }

  // ---------------------------------------------------------------- the failures do happen

  /** Workers may all be interrupted. */
  lemma {:induction false} AbortAll(s: State, n: nat, k: Key, name: string) returns (steps: seq<Step>, t: State)
    requires n <= |s.workers|
    ensures Helps(s, steps, t, k, name) && t == s.(workers := t.workers) && |t.workers| == |s.workers|
    ensures forall w | 0 <= w < n :: t.workers[w].Idle?
  {
    hide Next, Helps;
    if n == 0 {
      steps, t := [], s;
      NoHelp(s, k, name);
    } else {
      var u;
      steps, u := AbortAll(s, n - 1, k, name);
      t := Become(u, n - 1, Idle);
      AbortStep(u, n - 1);
      HelpsStep(u, Abort(n - 1), t, k, name);
      HelpsTrans(s, steps, u, [Abort(n - 1)], t, k, name);
      steps := steps + [Abort(n - 1)];
    }
  }

  /** From any state, an unready node without a secret can get stuck: its status write may be lost. */
  lemma NodeCanGetStuck(s: State, k: Key) returns (steps: seq<Step>)
    requires Inv(s) && |s.workers| > 0 && k in s.nodes && !s.nodes[k].state.Ready?
    requires SecretKey(k, s.nodes[k].secretName) !in s.secrets
    ensures Run(s, steps).Some? && LeavesNode(steps, k, s.nodes[k].secretName) && NodeStuck(Run(s, steps).value, k)
  {
    hide Next, Inv, Helps, Run;
    var name := s.nodes[k].secretName;
    var a, idle := AbortAll(s, |s.workers|, k, name);
    HelpsInv(s, a, idle, k, name);
    var b, t := GetsSecret(idle, k);
    HelpsTrans(s, a, idle, b, t, k, name);
    var u := Become(t, 0, Idle);
    AbortStep(t, 0);
    HelpsStep(t, Abort(0), u, k, name);
    HelpsTrans(s, a + b, t, [Abort(0)], u, k, name);
    steps := a + b + [Abort(0)];
    HelpsRun(s, steps, u, k, name);
    assert forall w | 0 <= w < |u.workers| :: u.workers[w].Idle?;
  }

  lemma RunSnoc(s: State, steps: seq<Step>, t: State, step: Step, u: State)
    requires Run(s, steps) == Some(t) && Next(t, step) == Some(u)
    ensures Run(s, steps + [step]) == Some(u)
  {
    hide Next;
    assert (steps + [step])[..|steps|] == steps;
  }

  /** A fresh CA has been added. */
  function OneCA(k: Key, name: string): State { PutCA(Initial(1), k, CA(name, false, 0)) }

  lemma OneCARun(k: Key, name: string)
    ensures Run(Initial(1), [AddCA(k, name)]) == Some(OneCA(k, name))
  {
    assert Next(Initial(1), AddCA(k, name)) == Some(OneCA(k, name));
    RunSnoc(Initial(1), [], Initial(1), AddCA(k, name), OneCA(k, name));
    assert [] + [AddCA(k, name)] == [AddCA(k, name)];
  }

  /** A run of one worker that loses the status write ends stuck. */
  lemma StuckIsReachable(k: Key, name: string) returns (steps: seq<Step>)
    ensures Run(Initial(1), steps).Some? && Stuck(Run(Initial(1), steps).value, k)
  {
    hide Run, Next;
    var s, ca := OneCA(k, name), CA(name, false, 0);
    steps := [AddCA(k, name)];
    OneCARun(k, name);
    StartCAStep(s, 0, k);
    var read := Become(s, 0, CARead(k, ca));
    RunSnoc(Initial(1), steps, s, StartCA(0, k, ca), read);
    steps := steps + [StartCA(0, k, ca)];
    CreateCASecretStep(read, 0, k, ca, "", "");
    var created := WithCASecret(read, 0, k, ca, "", "");
    RunSnoc(Initial(1), steps, read, CreateCASecret(0, "", ""), created);
    steps := steps + [CreateCASecret(0, "", "")];
    AbortStep(created, 0);
    RunSnoc(Initial(1), steps, created, Abort(0), Become(created, 0, Idle));
    steps := steps + [Abort(0)];
  }

  /** A run of one worker that makes a CA Ready. */
  lemma ReadyRun(k: Key, name: string) returns (steps: seq<Step>, t: State)
    ensures Run(Initial(1), steps) == Some(t) && k in t.cas && t.cas[k].ready && t.cas[k].secretName == name
    ensures t.secrets.Keys == {SecretKey(k, name)}
  {
    hide Next;
    OneCARun(k, name);
    var more;
    more, t := ServesCA(OneCA(k, name), 0, k);
    RunConcat(Initial(1), [AddCA(k, name)], more);
    steps := [AddCA(k, name)] + more;
  }

  /** Editing the secret name of a Ready CA, to any other name, leaves a Ready CA without a secret. */
  lemma EditedReadyCA(k: Key, name: string, other: string) returns (steps: seq<Step>)
    requires name != other
    ensures Run(Initial(1), steps).Some?
    ensures
      var s := Run(Initial(1), steps).value;
      k in s.cas && s.cas[k].ready && SecretKey(k, s.cas[k].secretName) !in s.secrets
  {
    hide Run, Next;
    var t;
    steps, t := ReadyRun(k, name);
    EditStep(t, k, other);
    RunSnoc(Initial(1), steps, t, EditCA(k, other), PutCA(t, k, CA(other, true, t.clock)));
    steps := steps + [EditCA(k, other)];
  }

  /** Deleting the secret of a Ready CA leaves a Ready CA without a secret, which no worker repairs. */
  lemma DeletedSecret(k: Key, name: string) returns (steps: seq<Step>)
    ensures Run(Initial(1), steps).Some?
    ensures
      var s := Run(Initial(1), steps).value;
      k in s.cas && s.cas[k].ready && SecretKey(k, s.cas[k].secretName) !in s.secrets
  {
    hide Run, Next;
    var t;
    steps, t := ReadyRun(k, name);
    var sk := SecretKey(k, name);
    DeleteSecretStep(t, sk);
    RunSnoc(Initial(1), steps, t, DeleteSecret(sk), t.(secrets := t.secrets - {sk}));
    steps := steps + [DeleteSecret(sk)];
  }

  lemma EditStep(s: State, k: Key, name: string)
    requires k in s.cas
    ensures Next(s, EditCA(k, name)) == Some(PutCA(s, k, CA(name, s.cas[k].ready, s.clock)))
  {
  }

  // ---------------------------------------------------------------- a stale certificate

  const OLD := Secret(User, map["ca.crt" := "old"])

  /** A user's secret has come and gone, and a CA of that secret name has become Ready. */
  lemma RecreatedSecret(j: Key, name: string) returns (steps: seq<Step>, t: State)
    ensures Run(Initial(1), steps) == Some(t) && Inv(t) && |t.workers| == 1 && t.nodes == map[]
    ensures j in t.cas && t.cas[j].ready && t.cas[j].secretName == name
    ensures t.secrets == map[SecretKey(j, name) := Secret(FromCA(j), map["ca.key" := "", "ca.crt" := ""])]
    ensures (SecretKey(j, name), OLD) in t.secretsSeen
  {
    hide Next, Works, Inv;
    var sk, s0 := SecretKey(j, name), Initial(1);
    var s1 := PutSecret(s0, sk, OLD);
    var s2 := s1.(secrets := s1.secrets - {sk});
    var s3 := PutCA(s2, j, CA(name, false, 0));
    AddStep(s0, sk, OLD.data);
    DeleteSecretStep(s1, sk);
    AddCAStep(s2, j, name);
    RunSnoc(s0, [], s0, AddSecret(sk, OLD.data), s1);
    RunSnoc(s0, [] + [AddSecret(sk, OLD.data)], s1, DeleteSecret(sk), s2);
    RunSnoc(s0, [] + [AddSecret(sk, OLD.data)] + [DeleteSecret(sk)], s2, AddCA(j, name), s3);
    steps := [] + [AddSecret(sk, OLD.data)] + [DeleteSecret(sk)] + [AddCA(j, name)];
    var more;
    more, t := ServesCA(s3, 0, j);
    WorksRun(s3, more, t);
    RunConcat(s0, steps, more);
    steps := steps + more;
    InitialInv(1);
    RunInv(s0, steps);
  }

  lemma WorksRun(s: State, steps: seq<Step>, t: State)
    requires Works(s, steps, t)
    ensures Run(s, steps) == Some(t)
  {
  }

  lemma AddStep(s: State, sk: Key, data: map<string, string>)
    requires sk !in s.secrets
    ensures Next(s, AddSecret(sk, data)) == Some(PutSecret(s, sk, Secret(User, data)))
  {
  }

  lemma AddCAStep(s: State, k: Key, name: string)
    requires k !in s.cas
    ensures Next(s, AddCA(k, name)) == Some(PutCA(s, k, CA(name, false, s.clock)))
  {
  }

  lemma AddNodeStep(s: State, k: Key, ca: Key, name: string)
    requires k !in s.nodes
    ensures Next(s, AddNode(k, ca, name)) == Some(PutNode(s, k, Node(ca, name, Creating, s.clock)))
  {
  }

  /**
    A secret of the CA's name that was deleted before the CA existed can still be read from a stale cache:
    the node becomes Ready with a certificate that is not its CA's, although nobody touched either of them.
  */
  lemma StaleCertificate(k: Key, other: string, j: Key, name: string) returns (steps: seq<Step>)
    requires SecretKey(k, other) != SecretKey(j, name)
    ensures Run(Initial(1), steps).Some?
    ensures
      var s := Run(Initial(1), steps).value;
      && k in s.nodes && s.nodes[k].state.Ready? && s.nodes[k].ca == j && !NodeSecured(s, k, s.nodes[k])
      && j in s.cas && s.cas[j].ready && OwnSecret(s, j, s.cas[j])
  {
    hide Next, Works, Inv, Run;
    var t;
    steps, t := RecreatedSecret(j, name);
    var a := PutNode(t, k, Node(j, other, Creating, t.clock));
    AddNodeStep(t, k, j, other);
    RunSnoc(Initial(1), steps, t, AddNode(k, j, other), a);
    StepInv(t, AddNode(k, j, other));
    steps := steps + [AddNode(k, j, other)];
    var more := CreatesFor(a, 0, k, OLD);
    var b := WithNodeSecret(a, 0, k, a.nodes[k], "old");
    WorksRun(a, more, b);
    RunConcat(Initial(1), steps, more);
    steps := steps + more;
    WriteNodeStatusStep(b, 0, k, a.nodes[k]);
    var c := Become(PutNode(b, k, b.nodes[k].(state := Ready, version := b.clock)), 0, Idle);
    RunSnoc(Initial(1), steps, b, WriteNodeStatus(0), c);
    steps := steps + [WriteNodeStatus(0)];
    assert EntryOf(c.secrets[SecretKey(k, other)], "ca.crt") == "old";
    assert EntryOf(c.secrets[SecretKey(j, name)], "ca.crt") == "";
    assert |"old"| == 3;
  }
}
