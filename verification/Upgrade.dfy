/**
  The upgrade command: it looks up all instances, recovers the values of each from its stored input,
  derives them again and installs the result.
*/
module Upgrade {
  import opened Wrappers
  import opened Derived
  import opened Repo
  import opened AppManagement

  /** What rendering makes of an input: data files and resources. */
  datatype Parts = Parts(data: seq<(string, string)>, resources: seq<(string, string)>)

  /** An application: its fields, and its rendering of a JSON input for an instance, which may fail. */
  datatype Application = Application(fields: seq<Field>, render: (string, map<string, Value>) -> Option<Parts>)

  /** The applications of this release, the networks of the environment, and the keys that would be generated. */
  datatype Context = Context(apps: map<string, Application>, networks: seq<Network>, gen: string -> KeyGen)

  // ---------------------------------------------------------------- one instance

  /** The rendered application without any content, configuration included. */
  const NOTHING := App(Config("", map[]), [], [])

  datatype Plan = Reinstall(app: App) | Stop | Crash

  /** Render: an error of the derivation is dropped, and the empty application is returned in its place. */
  function Render(ctx: Context, id: string, appId: string, values: map<string, Value>): Plan
    requires appId in ctx.apps
  {
    match DeriveFields(Obj(values), ctx.apps[appId].fields, ctx.networks, ctx.gen(id), [])
    case Err => Reinstall(NOTHING)
    case Panicked => Crash
    case Ok(derived) =>
      var input := Persist(Obj(derived)).m;
      match ctx.apps[appId].render(id, input)
      case None => Stop
      case Some(parts) => Reinstall(App(Config(appId, input), parts.data, parts.resources))
  }

  /** What the loop does with one instance, given the configuration that was looked up. */
  function PlanFor(ctx: Context, id: string, cfg: Config): Plan {
    if cfg.appId !in ctx.apps then Stop
    else
      match RecoverFields(cfg.input, ctx.apps[cfg.appId].fields)
      case Ok(values) => Render(ctx, id, cfg.appId, values)
      case _ => Crash
  }

  // ---------------------------------------------------------------- the loop

  datatype Outcome = Done | Failed | Crashed

  type Found = seq<(string, Config)>

  /** The loop on the file tree. */
  function Rewritten(files: Files, root: Path, ctx: Context, found: Found): (Files, Outcome) {
    if found == [] then (files, Done)
    else
      var (f, o) := Rewritten(files, root, ctx, found[..|found| - 1]);
      if o != Done then (f, o) else RewriteOne(f, root, ctx, found[|found| - 1])
  }

  /** One iteration: Update reads both configurations before it renders. */
  function RewriteOne(files: Files, root: Path, ctx: Context, inst: (string, Config)): (Files, Outcome) {
    match PlanFor(ctx, inst.0, inst.1)
    case Stop => (files, Failed)
    case Crash => (files, if Recovers(ctx, inst.1) && !Known(files, root, inst.0) then Failed else Crashed)
    case Reinstall(app) =>
      var c := Call.Update(inst.0, app);
      (After(files, root, c), if Succeeds(files, root, c) then Done else Failed)
  }

  /** The environment and the instance have configurations. */
  predicate Known(files: Files, root: Path, id: string) { HasEnv(files) && ConfigAt(files, root + [id]).Some? }

  predicate Recovers(ctx: Context, cfg: Config) {
    cfg.appId in ctx.apps && RecoverFields(cfg.input, ctx.apps[cfg.appId].fields).Ok?
  }

  /** The same loop on a registry, where every instance that was found is known. */
  function Reviewed(r: Registry, ctx: Context, found: Found): (Registry, Outcome) {
    if found == [] then (r, Done)
    else
      var (q, o) := Reviewed(r, ctx, found[..|found| - 1]);
      if o != Done then (q, o) else ReviewOne(q, ctx, found[|found| - 1])
  }

  function ReviewOne(r: Registry, ctx: Context, inst: (string, Config)): (Registry, Outcome) {
    match PlanFor(ctx, inst.0, inst.1)
    case Stop => (r, Failed)
    case Crash => (r, Crashed)
    case Reinstall(app) => (RegistryAfter(r, Call.Update(inst.0, app)), if Installs(app) then Done else Failed)
  }

  method UpgradeAll(mgr: AppManager, ctx: Context) returns (outcome: Outcome)
    modifies mgr
    ensures !HasEnv(old(mgr.files)) || !Findable(old(mgr.files), mgr.root) ==>
      outcome == Failed && mgr.files == old(mgr.files)
    ensures HasEnv(old(mgr.files)) && Findable(old(mgr.files), mgr.root) ==>
      (mgr.files, outcome) == Rewritten(old(mgr.files), mgr.root, ctx, FoundIn(old(mgr.files), mgr.root))
  {
    hide RewriteOne, PlanFor, Findable, FoundIn;
    ghost var start := mgr.files;
    var env := mgr.HasConfig();
    if !env { return Failed; }
    var all := mgr.FindAllInstances();
    if all.None? { return Failed; }
    var found := all.value;
    FoundIs(start, mgr.root, found);
    outcome := Done;
    for i := 0 to |found|
      invariant outcome == Done && Rewritten(start, mgr.root, ctx, found[..i]) == (mgr.files, Done)
    {
      assert found[..i + 1][..i] == found[..i] && found[..i + 1][i] == found[i];
      outcome := UpgradeOne(mgr, ctx, found[i].0, found[i].1);
      if outcome != Done {
        RewrittenStops(start, mgr.root, ctx, found, i + 1);
        return;
      }
    }
    assert found[..|found|] == found;
  }

  method UpgradeOne(mgr: AppManager, ctx: Context, id: string, cfg: Config) returns (outcome: Outcome)
    modifies mgr
    ensures (mgr.files, outcome) == RewriteOne(old(mgr.files), mgr.root, ctx, (id, cfg))
  {
    hide After, Succeeds, HasEnv, ConfigAt;
    if cfg.appId !in ctx.apps { return Failed; }
    var fields := ctx.apps[cfg.appId].fields;
    var values := DerivedToConfig(cfg.input, fields);
    if !values.Ok? { return Crashed; }
    if !Known(mgr.files, mgr.root, id) {
      NotKnown(mgr.files, mgr.root, id, NOTHING);
      forall app { NotKnown(mgr.files, mgr.root, id, app); }
      return Failed;
    }
    var derived := DeriveValues(Obj(values.value), fields, ctx.networks, ctx.gen(id), []);
    var app := NOTHING;
    match derived {
      case Panicked => return Crashed;
      case Err =>
      case Ok(d) =>
        var input := Persist(Obj(d)).m;
        var parts := ctx.apps[cfg.appId].render(id, input);
        if parts.None? { return Failed; }
        app := App(Config(cfg.appId, input), parts.value.data, parts.value.resources);
    }
    var ok := mgr.Update(id, app);
    outcome := if ok then Done else Failed;
  }

  lemma NotKnown(files: Files, root: Path, id: string, app: App)
    requires !Known(files, root, id)
    ensures After(files, root, Call.Update(id, app)) == files && !Succeeds(files, root, Call.Update(id, app))
  {
  }

  lemma {:induction false} RewrittenStops(files: Files, root: Path, ctx: Context, found: Found, i: nat)
    requires i <= |found| && Rewritten(files, root, ctx, found[..i]).1 != Done
    ensures Rewritten(files, root, ctx, found) == Rewritten(files, root, ctx, found[..i])
    decreases |found|
  {
    hide RewriteOne;
    if i == |found| {
      assert found[..i] == found;
    } else {
      assert found[..|found| - 1][..i] == found[..i];
      RewrittenStops(files, root, ctx, found[..|found| - 1], i);
    }
  }

  /** What looking up all instances returns. */
  function FoundIn(files: Files, root: Path): Found
    requires Findable(files, root)
  {
    var listed := ResourcesAt(files, root);
    seq(|listed|, i requires 0 <= i < |listed| => (listed[i], ConfigAt(files, root + [listed[i]]).value))
  }

  lemma FoundIs(files: Files, root: Path, found: Found)
    requires Findable(files, root) && |found| == |ResourcesAt(files, root)|
    requires forall i | 0 <= i < |found| ::
      found[i].0 == ResourcesAt(files, root)[i] && ConfigAt(files, root + [found[i].0]) == Some(found[i].1)
    ensures found == FoundIn(files, root)
  {
  }

  // ---------------------------------------------------------------- the loop acts on the registry

  /** Everything in the list is an instance of the registry. */
  ghost predicate Members(r: Registry, root: Path, found: Found) {
    forall i | 0 <= i < |found| :: found[i].0 in r.configs && Plain(root, found[i].0)
  }

  lemma OneRefines(files: Files, root: Path, r: Registry, ctx: Context, inst: (string, Config))
    requires Refines(files, root, r) && r.env && inst.0 in r.configs && Plain(root, inst.0)
    ensures
      var (f, o) := RewriteOne(files, root, ctx, inst);
      var (q, p) := ReviewOne(r, ctx, inst);
      o == p && Refines(f, root, q) && q.env && q.configs.Keys == r.configs.Keys
  {
    hide PlanFor, Installed, Readable, ConfigAt, ResourcesAt, ChainReadable, Prepared, HasEnv;
    assert Known(files, root, inst.0);
    match PlanFor(ctx, inst.0, inst.1)
    case Reinstall(app) =>
      StepRefines(files, root, r, Call.Update(inst.0, app));
      PreparedReadable(files, root, inst.0, app);
    case _ =>
  }

  lemma {:induction false} LoopRefines(files: Files, root: Path, r: Registry, ctx: Context, found: Found)
    requires Refines(files, root, r) && r.env && Members(r, root, found)
    ensures
      var (f, o) := Rewritten(files, root, ctx, found);
      var (q, p) := Reviewed(r, ctx, found);
      o == p && Refines(f, root, q) && q.env && q.configs.Keys == r.configs.Keys
  {
    hide Refines, RewriteOne, ReviewOne;
    if found != [] {
      var init, last := found[..|found| - 1], found[|found| - 1];
      LoopRefines(files, root, r, ctx, init);
      var (f, o) := Rewritten(files, root, ctx, init);
      var (q, p) := Reviewed(r, ctx, init);
      if o == Done { OneRefines(f, root, q, ctx, last); }
    }
  }

  /** What the registry says about the instances it lists. */
  function Listed(r: Registry): Found
    requires forall id | id in r.listed :: id in r.configs
  {
    seq(|r.listed|, i requires 0 <= i < |r.listed| => (r.listed[i], r.configs[r.listed[i]]))
  }

  lemma FoundListed(files: Files, root: Path, r: Registry)
    requires Refines(files, root, r) && HasList(files, root)
    ensures Findable(files, root) && FoundIn(files, root) == Listed(r) && Members(r, root, Listed(r))
  {
    hide HasList, Readable, HasEnv, ConfigAt, ResourcesAt;
    RefinesFindable(files, root, r);
    var found, listed := FoundIn(files, root), Listed(r);
    forall i | 0 <= i < |listed| ensures found[i] == listed[i] && Plain(root, listed[i].0) {
      assert r.listed[i] in r.listed;
    }
  }

  /** From every tree that looks like a registry, the upgrade acts on the tree as the loop acts on the registry. */
  lemma UpgradeRefines(files: Files, root: Path, r: Registry, ctx: Context)
    requires Refines(files, root, r) && r.env && HasList(files, root)
    ensures Findable(files, root)
    ensures
      var (f, o) := Rewritten(files, root, ctx, FoundIn(files, root));
      var (q, p) := Reviewed(r, ctx, Listed(r));
      o == p && Refines(f, root, q)
  {
    hide HasList, Rewritten, Reviewed, Listed, FoundIn, Findable, Readable, HasEnv, ConfigAt, ResourcesAt;
    FoundListed(files, root, r);
    LoopRefines(files, root, r, ctx, Listed(r));
  }

  // ---------------------------------------------------------------- what the upgrade keeps

  /** The stored input is what deriving some well-typed values stored, without anything that is lost. */
  ghost predicate Derives(ctx: Context, cfg: Config, v: Value, gen: KeyGen) {
    cfg.appId in ctx.apps &&
    var fs := ctx.apps[cfg.appId].fields;
    && WellFormed(fs) && Typed(v, fs, ctx.networks) && !Holds(v, fs, IsNumber) && !Holds(v, fs, IsLost)
    && DeriveFields(v, fs, ctx.networks, gen, []).Ok?
    && cfg.input == Persist(Obj(DeriveFields(v, fs, ctx.networks, gen, []).value)).m
  }

  /** And the application still renders that input, without forbidden data. */
  ghost predicate Sound(ctx: Context, id: string, cfg: Config) {
    && (exists v, gen :: Derives(ctx, cfg, v, gen))
    && var parts := ctx.apps[cfg.appId].render(id, cfg.input);
       parts.Some? && Installs(App(cfg, parts.value.data, parts.value.resources))
  }

  lemma SoundPlan(ctx: Context, id: string, cfg: Config)
    requires Sound(ctx, id, cfg)
    ensures
      var plan := PlanFor(ctx, id, cfg);
      plan.Reinstall? && plan.app.cfg == cfg && Installs(plan.app)
  {
    hide Typed, Holds, WellFormed, DeriveFields, RecoverFields;
    var v, gen :| Derives(ctx, cfg, v, gen);
    var fs := ctx.apps[cfg.appId].fields;
    RoundTrip(v, fs, ctx.networks, gen, []);
    Rederived(v, fs, ctx.networks, gen, [], ctx.gen(id));
    assert Persist(Obj(DeriveFields(v, fs, ctx.networks, gen, []).value)).m == cfg.input;
  }

  /** The plan for the instance reinstalls the configuration that it has, without forbidden data. */
  predicate Same(ctx: Context, id: string, cfg: Config) {
    var plan := PlanFor(ctx, id, cfg);
    plan.Reinstall? && plan.app.cfg == cfg && Installs(plan.app)
  }

  lemma SameReview(r: Registry, ctx: Context, inst: (string, Config))
    requires r.env && inst.0 in r.listed && inst.0 in r.configs && r.configs[inst.0] == inst.1
    requires Same(ctx, inst.0, inst.1)
    ensures ReviewOne(r, ctx, inst) == (r, Done)
  {
    hide PlanFor, Installs;
    assert r.configs[inst.0 := inst.1] == r.configs;
  }

  /** Everything in the list is listed in the registry with that configuration. */
  predicate Current(r: Registry, found: Found) {
    forall i | 0 <= i < |found| ::
      found[i].0 in r.listed && found[i].0 in r.configs && r.configs[found[i].0] == found[i].1
  }

  lemma {:induction false} SameLoop(r: Registry, ctx: Context, found: Found)
    requires r.env && Current(r, found) && forall i | 0 <= i < |found| :: Same(ctx, found[i].0, found[i].1)
    ensures Reviewed(r, ctx, found) == (r, Done)
  {
    hide Same, ReviewOne;
    if found != [] {
      SameLoop(r, ctx, found[..|found| - 1]);
      SameReview(r, ctx, found[|found| - 1]);
    }
  }

  /** No instance occurs twice in the list. */
  predicate Once(found: Found) { forall i, j | 0 <= i < j < |found| :: found[i].0 != found[j].0 }

  /** An iteration that reports success reinstalls, and changes no configuration but that of its instance. */
  lemma ReviewDone(r: Registry, ctx: Context, inst: (string, Config), id: string)
    requires r.env && inst.0 in r.configs && ReviewOne(r, ctx, inst).1 == Done && id in r.configs
    ensures
      var q, plan := ReviewOne(r, ctx, inst).0, PlanFor(ctx, inst.0, inst.1);
      && plan.Reinstall? && Installs(plan.app) && q.env && q.configs.Keys == r.configs.Keys
      && q.configs[id] == if id == inst.0 then plan.app.cfg else r.configs[id]
  {
    hide PlanFor, Installs;
  }

  /** After a loop that reports success, every instance has the configuration that was planned for it. */
  lemma {:induction false} LoopDone(r: Registry, ctx: Context, found: Found, i: nat)
    requires r.env && Once(found) && (forall j | 0 <= j < |found| :: found[j].0 in r.configs)
    requires Reviewed(r, ctx, found).1 == Done && i < |found|
    ensures
      var q, plan := Reviewed(r, ctx, found).0, PlanFor(ctx, found[i].0, found[i].1);
      && plan.Reinstall? && Installs(plan.app) && q.env && q.configs.Keys == r.configs.Keys
      && q.configs[found[i].0] == plan.app.cfg
  {
    hide PlanFor, Installs, ReviewOne;
    var n, init := |found| - 1, found[..|found| - 1];
    var (q, o) := Reviewed(r, ctx, init);
    if n > 0 { LoopDone(r, ctx, init, if i < n then i else 0); }
    assert i < n ==> init[i] == found[i];
    assert q.env && q.configs.Keys == r.configs.Keys;
    ReviewDone(q, ctx, found[n], found[i].0);
  }

  /**
    The upgrade succeeds and leaves every listed instance with its configuration, if and only if the plan
    for each of them reinstalls the configuration that it has, without forbidden data.
  */
  lemma UpgradeKeepsExactly(files: Files, root: Path, r: Registry, ctx: Context)
    requires Refines(files, root, r) && r.env && HasList(files, root)
    ensures Findable(files, root)
    ensures
      var (f, o) := Rewritten(files, root, ctx, FoundIn(files, root));
      (o == Done && Refines(f, root, r)) <==> (forall id | id in r.listed :: Same(ctx, id, r.configs[id]))
  {
    hide HasList, Rewritten, Reviewed, FoundIn, Findable, Same, ReviewOne, Readable, HasEnv, ConfigAt, ResourcesAt;
    UpgradeRefines(files, root, r, ctx);
    var found := Listed(r);
    ListedFacts(r, root);
    var (f, o) := Rewritten(files, root, ctx, FoundIn(files, root));
    if forall id | id in r.listed :: Same(ctx, id, r.configs[id]) {
      SameLoop(r, ctx, found);
    } else if o == Done && Refines(f, root, r) {
      forall id | id in r.listed ensures Same(ctx, id, r.configs[id]) {
        KeptIsSame(f, root, r, ctx, id);
      }
    }
  }

  lemma ListedFacts(r: Registry, root: Path)
    requires Distinct(r.listed) && forall id | id in r.listed :: id in r.configs && Plain(root, id)
    ensures Once(Listed(r)) && Current(r, Listed(r)) && forall i | 0 <= i < |Listed(r)| :: Listed(r)[i].0 in r.listed
  {
    forall i | 0 <= i < |r.listed| ensures r.listed[i] in r.listed && r.listed[i] in r.configs { }
  }

  lemma KeptIsSame(f: Files, root: Path, r: Registry, ctx: Context, id: string)
    requires r.env && Refines(f, root, r) && id in r.listed
    requires Reviewed(r, ctx, Listed(r)).1 == Done && Refines(f, root, Reviewed(r, ctx, Listed(r)).0)
    ensures Same(ctx, id, r.configs[id])
  {
    hide Readable, HasEnv, ConfigAt, ResourcesAt, Reviewed, PlanFor, Installs;
    var found, q := Listed(r), Reviewed(r, ctx, Listed(r)).0;
    ListedFacts(r, root);
    var i :| 0 <= i < |r.listed| && r.listed[i] == id;
    LoopDone(r, ctx, found, i);
    assert ConfigAt(f, root + [id]) == Some(r.configs[id]) && ConfigAt(f, root + [id]) == Some(q.configs[id]);
  }

  /**
    In particular it does so when every stored input came from deriving well-typed values without anything
    that is lost, and still renders: no key is generated anew.
  */
  lemma UpgradeKeeps(files: Files, root: Path, r: Registry, ctx: Context)
    requires Refines(files, root, r) && r.env && HasList(files, root)
    requires forall id | id in r.listed :: id in r.configs && Sound(ctx, id, r.configs[id])
    ensures Findable(files, root)
    ensures
      var (f, o) := Rewritten(files, root, ctx, FoundIn(files, root));
      o == Done && Refines(f, root, r)
  {
    hide Refines, HasList, Rewritten, FoundIn, Findable, Sound;
    UpgradeKeepsExactly(files, root, r, ctx);
    forall id | id in r.listed ensures Same(ctx, id, r.configs[id]) {
      SoundPlan(ctx, id, r.configs[id]);
    }
  }

  // ---------------------------------------------------------------- what it loses

  /** The stored input can be recovered, and every network it names is one of the environment's. */
  predicate KnowsNetworks(ctx: Context, cfg: Config) {
    && Recovers(ctx, cfg)
    && var fs := ctx.apps[cfg.appId].fields;
       !Holds(Obj(RecoverFields(cfg.input, fs).value), fs, UnknownIn(ctx.networks))
  }

  /** What the plan stores, when there is one. */
  lemma PlansExactly(ctx: Context, id: string, cfg: Config)
    requires PlanFor(ctx, id, cfg).Reinstall? && WellFormed(ctx.apps[cfg.appId].fields) && cfg.appId != ""
    ensures KnowsNetworks(ctx, cfg) <==> PlanFor(ctx, id, cfg).app.cfg.appId == cfg.appId
    ensures !KnowsNetworks(ctx, cfg) ==> PlanFor(ctx, id, cfg) == Reinstall(NOTHING)
  {
    hide DeriveFields, RecoverFields, Persist, WellFormed, Holds;
    RecoveredDerives(cfg.input, ctx.apps[cfg.appId].fields, ctx.networks, ctx.gen(id), []);
  }

  /**
    An iteration that reports success leaves the instance with its application if and only if every network
    that its stored input names is one of the environment's; otherwise it leaves it with the empty
    configuration.
  */
  lemma KeepsAppExactly(files: Files, root: Path, ctx: Context, id: string, cfg: Config)
    requires RewriteOne(files, root, ctx, (id, cfg)).1 == Done && cfg.appId != "" && cfg.appId in ctx.apps
    requires WellFormed(ctx.apps[cfg.appId].fields)
    ensures
      var after := ConfigAt(RewriteOne(files, root, ctx, (id, cfg)).0, root + [id]);
      && after.Some?
      && (after.value.appId == cfg.appId <==> KnowsNetworks(ctx, cfg))
      && (!KnowsNetworks(ctx, cfg) ==> after.value == NOTHING.cfg)
  {
    hide PlanFor, Installed, ConfigAt, InstallOk, KnowsNetworks, WellFormed, HasEnv;
    var plan := PlanFor(ctx, id, cfg);
    assert plan.Reinstall?;
    InstalledConfig(files, root + [id], plan.app);
    PlansExactly(ctx, id, cfg);
  }

  /** A plan that keeps the application carries exactly what rendering made of the input that it stores. */
  lemma PlanRenders(ctx: Context, id: string, cfg: Config)
    requires PlanFor(ctx, id, cfg).Reinstall? && PlanFor(ctx, id, cfg) != Reinstall(NOTHING)
    ensures
      var app := PlanFor(ctx, id, cfg).app;
      && cfg.appId in ctx.apps && app.cfg.appId == cfg.appId
      && ctx.apps[cfg.appId].render(id, app.cfg.input) == Some(Parts(app.data, app.resources))
  {
    hide DeriveFields, RecoverFields, Persist;
  }

  /**
    Upgrading an instance whose plan reinstalls its own configuration leaves its resources and data exactly
    as this release renders them from the stored input: every file with its contents, every resource listed,
    and nothing else in its directory.
  */
  lemma UpgradedFiles(files: Files, root: Path, ctx: Context, id: string, cfg: Config)
    requires Readable(files, root) && id != KUST && Known(files, root, id) && Same(ctx, id, cfg) && cfg.appId != ""
    ensures cfg.appId in ctx.apps && ctx.apps[cfg.appId].render(id, cfg.input).Some?
    ensures
      var parts := ctx.apps[cfg.appId].render(id, cfg.input).value;
      var (f, o) := RewriteOne(files, root, ctx, (id, cfg));
      var dir := root + [id];
      && o == Done && ConfigAt(f, dir) == Some(cfg)
      && (forall i | 0 <= i < |parts.resources| && LastOf(parts.resources, i) && parts.resources[i].0 != KUST ::
            var k := dir + [RESOURCES] + [parts.resources[i].0];
            k in f && f[k] == Blob(parts.resources[i].1))
      && (forall i | 0 <= i < |parts.data| && LastOf(parts.data, i) ::
            dir + [parts.data[i].0] in f && f[dir + [parts.data[i].0]] == Blob(parts.data[i].1))
      && (forall x :: x in ResourcesAt(f, dir + [RESOURCES]) <==> x in NamesOf(parts.resources))
      && (forall k | k in f && Under(dir, k) :: Belonging(dir, App(cfg, parts.data, parts.resources), k))
  {
    hide PlanFor, Installed, InstallOk, ConfigAt, HasEnv, Readable, Belonging, LastOf, NamesOf, Prepared, Chained;
    var app := PlanFor(ctx, id, cfg).app;
    var dir := root + [id];
    PlanRenders(ctx, id, cfg);
    InstallReady(files, root, id, app);
    InstalledConfig(files, dir, app);
    InstalledLists(files, dir, app);
    AllAllowed(app);
    forall i | 0 <= i < |app.resources| && LastOf(app.resources, i) && app.resources[i].0 != KUST
      ensures
        var k := dir + [RESOURCES] + [app.resources[i].0];
        k in Installed(files, dir, app) && Installed(files, dir, app)[k] == Blob(app.resources[i].1)
    {
      InstalledResource(files, dir, app, i);
    }
    forall i | 0 <= i < |app.data| && LastOf(app.data, i)
      ensures
        var k := dir + [app.data[i].0];
        k in Installed(files, dir, app) && Installed(files, dir, app)[k] == Blob(app.data[i].1)
    {
      InstalledData(files, dir, app, i);
    }
    forall k | k in Installed(files, dir, app) && Under(dir, k) ensures Belonging(dir, app, k) {
      InstalledOnly(files, root, id, app, k);
    }
  }

  lemma AllAllowed(app: App)
    requires Installs(app)
    ensures Allowed(app.data) == |app.data| && app.data[..Allowed(app.data)] == app.data
  {
  }

  lemma InstallReady(files: Files, root: Path, id: string, app: App)
    requires Readable(files, root) && id != KUST && Installs(app)
    ensures InstallOk(files, root + [id], app)
  {
    PreparedReadable(files, root, id, app);
  }

  /**
    An instance whose application is not in this release stops the upgrade with an error, and one whose
    stored input came from values with a list or an unnamed network crashes it; neither changes a file.
  */
  lemma StopsUpgrade(files: Files, root: Path, ctx: Context, id: string, cfg: Config, v: Value, gen: KeyGen)
    ensures cfg.appId !in ctx.apps ==> RewriteOne(files, root, ctx, (id, cfg)) == (files, Failed)
    ensures cfg.appId in ctx.apps ==>
      var fs := ctx.apps[cfg.appId].fields;
      WellFormed(fs) && Typed(v, fs, ctx.networks) && !Holds(v, fs, IsNumber) && Holds(v, fs, IsLost)
      && DeriveFields(v, fs, ctx.networks, gen, []).Ok?
      && cfg.input == Persist(Obj(DeriveFields(v, fs, ctx.networks, gen, []).value)).m
      ==> RewriteOne(files, root, ctx, (id, cfg)) == (files, Crashed)
  {
    hide DeriveFields, RecoverFields, Typed, Holds, WellFormed;
    if cfg.appId in ctx.apps {
      var fs := ctx.apps[cfg.appId].fields;
      if && WellFormed(fs) && Typed(v, fs, ctx.networks) && Holds(v, fs, IsLost)
         && DeriveFields(v, fs, ctx.networks, gen, []).Ok?
         && cfg.input == Persist(Obj(DeriveFields(v, fs, ctx.networks, gen, []).value)).m
      {
        RoundTrip(v, fs, ctx.networks, gen, []);
      }
    }
  }

  /** An instance that stops or crashes the upgrade keeps every later one from being touched. */
  lemma StopsThere(files: Files, root: Path, ctx: Context, found: Found, i: nat)
    requires i < |found| && Rewritten(files, root, ctx, found[..i]).1 == Done
    requires RewriteOne(Rewritten(files, root, ctx, found[..i]).0, root, ctx, found[i]).1 != Done
    ensures Rewritten(files, root, ctx, found)
         == RewriteOne(Rewritten(files, root, ctx, found[..i]).0, root, ctx, found[i])
  {
    hide RewriteOne;
    assert found[..i + 1][..i] == found[..i] && found[..i + 1][i] == found[i];
    RewrittenStops(files, root, ctx, found, i + 1);
  }

  /** The networks of every environment. */
  function CreateNetworks(id: string, infraName: string, domain: string, privateDomain: string): seq<Network> {
    var host := (space: string) => "http://port-allocator." + space + ".svc.cluster.local/api/allocate";
    [Network("Public", infraName + "-ingress-public", id + "-public", domain, host(infraName + "-ingress-public")),
     Network("Private", id + "-ingress-private", "", privateDomain, host(id + "-ingress-private"))]
  }

  lemma OnlyTwoNetworks(id: string, infraName: string, domain: string, privateDomain: string, network: string)
    ensures FindNetwork(CreateNetworks(id, infraName, domain, privateDomain), network).None?
      <==> network != "Public" && network != "Private"
  {
    var ns := CreateNetworks(id, infraName, domain, privateDomain);
    var rest := ns[1..];
    assert ns[0].name == "Public" && rest[0].name == "Private" && rest[1..] == [];
    assert FindNetwork(rest, network).None? <==> network != "Private";
  }

  /** An input whose one field holds a network of that name. */
  function OnNetwork(name: string, network: string): map<string, Value> {
    map[name := Obj(map["name" := Str(network)])]
  }

  lemma RecoversNetwork(name: string, network: string)
    ensures RecoverFields(OnNetwork(name, network), OneField(name, KindNetwork)) == Ok(map[name := Str(network)])
  {
    var fs, input := OneField(name, KindNetwork), OnNetwork(name, network);
    assert fs[..0] == [] && fs[|fs| - 1] == Field(name, Basic(KindNetwork));
    assert RecoverField(input, fs[0]) == Ok(Some(Str(network)));
  }

  lemma UnknownHeld(name: string, network: string, networks: seq<Network>)
    requires FindNetwork(networks, network).None?
    ensures Holds(OneValue(name, Str(network)), OneField(name, KindNetwork), UnknownIn(networks))
    ensures !Holds(OneValue(name, Str(network)), OneField(name, KindNetwork), NoName)
    ensures WellFormed(OneField(name, KindNetwork))
  {
    var fs, v := OneField(name, KindNetwork), OneValue(name, Str(network));
    assert fs[..0] == [] && fs[|fs| - 1] == Field(name, Basic(KindNetwork)) && v.m[name] == Str(network);
    assert !Holds(v, [], NoName);
  }

  /** The plan for an instance on a network that the environment does not have. */
  lemma LostPlan(ctx: Context, id: string, cfg: Config, name: string, network: string)
    requires cfg.appId in ctx.apps && ctx.apps[cfg.appId].fields == OneField(name, KindNetwork)
    requires cfg.input == OnNetwork(name, network) && FindNetwork(ctx.networks, network).None?
    ensures PlanFor(ctx, id, cfg) == Reinstall(NOTHING)
  {
    hide DeriveFields, RecoverFields, Holds, WellFormed;
    RecoversNetwork(name, network);
    UnknownHeld(name, network, ctx.networks);
    RecoveredDerives(cfg.input, OneField(name, KindNetwork), ctx.networks, ctx.gen(id), []);
  }

  /** Installing nothing always works, and stores the empty configuration. */
  lemma NothingInstalls(files: Files, root: Path, id: string)
    requires Readable(files, root) && id != KUST
    ensures InstallOk(files, root + [id], NOTHING)
    ensures ConfigAt(Installed(files, root + [id], NOTHING), root + [id]) == Some(NOTHING.cfg)
    ensures id in ResourcesAt(Installed(files, root + [id], NOTHING), root)
  {
    hide Prepared, Installed, ConfigAt, ResourcesAt, ChainReadable;
    PreparedReadable(files, root, id, NOTHING);
    InstalledConfig(files, root + [id], NOTHING);
    InstalledListing(files, root, id, NOTHING);
  }

  /**
    Upgrading an instance on a network that the environment does not have, which is any but Public and
    Private, reports success and leaves the empty configuration in its place.
  */
  lemma LostNetwork(files: Files, root: Path, ctx: Context, id: string, cfg: Config, name: string, network: string)
    requires Readable(files, root) && id != KUST && Known(files, root, id)
    requires cfg.appId in ctx.apps && ctx.apps[cfg.appId].fields == OneField(name, KindNetwork)
    requires cfg.input == OnNetwork(name, network) && FindNetwork(ctx.networks, network).None?
    ensures
      var (f, o) := RewriteOne(files, root, ctx, (id, cfg));
      o == Done && ConfigAt(f, root + [id]) == Some(NOTHING.cfg)
  {
    hide PlanFor, Installed, InstallOk, ConfigAt, HasEnv, Readable;
    LostPlan(ctx, id, cfg, name, network);
    NothingInstalls(files, root, id);
  }

  /**
    The dropped error makes a first installation lie as well: with well-typed values, one that gets as far
    as a readable repository and renders reports success either way, but installs the application if and
    only if no number field is present; otherwise it lists an instance with the empty configuration.
  */
  lemma FirstInstall(files: Files, root: Path, ctx: Context, id: string, appId: string, values: map<string, Value>)
    requires Readable(files, root) && id != KUST && HasEnv(files) && appId in ctx.apps && appId != ""
    requires Typed(Obj(values), ctx.apps[appId].fields, ctx.networks)
    requires
      var plan := Render(ctx, id, appId, values);
      plan.Reinstall? && Installs(plan.app)
    ensures
      var c := Call.Install(id, Render(ctx, id, appId, values).app);
      var after := ConfigAt(After(files, root, c), root + [id]);
      && Succeeds(files, root, c) && id in ResourcesAt(After(files, root, c), root) && after.Some?
      && (after.value.appId == appId <==> !Holds(Obj(values), ctx.apps[appId].fields, IsNumber))
      && (after.value.appId != appId ==> after.value == NOTHING.cfg)
  {
    var app := Render(ctx, id, appId, values).app;
    DeriveSucceeds(Obj(values), ctx.apps[appId].fields, ctx.networks, ctx.gen(id), []);
    hide DeriveFields, Typed, Holds, Prepared, Installed, ConfigAt, ResourcesAt, ChainReadable, HasEnv, Persist;
    PreparedReadable(files, root, id, app);
    InstalledConfig(files, root + [id], app);
    InstalledListing(files, root, id, app);
  }
}
