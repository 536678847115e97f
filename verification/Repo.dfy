/** The GitOps repository as a file tree, its kustomization lists, and what installing into it means. */
module Repo {
  import opened Wrappers
  import Derived

  /** The configuration of an instance: its application and the derived input, as read back from JSON. */
  datatype Config = Config(appId: string, input: map<string, Derived.Value>)

  /** A kustomization, the configuration of an instance, that of the environment, or anything else. */
  datatype File = Kust(resources: seq<string>) | Instance(cfg: Config) | Env(text: string) | Blob(text: string)

  /** Components of a cleaned absolute path; the root directory is the empty list. */
  type Path = seq<string>
  type Files = map<Path, File>

  const KUST := "kustomization.yaml"
  const CONFIG := "config.json"
  const YAML := "config.yaml"
  const RESOURCES := "resources"

  // ---------------------------------------------------------------- kustomization lists

  function AddResource(rs: seq<string>, name: string): (r: seq<string>)
    ensures name in r && rs <= r && |r| <= |rs| + 1
    ensures Distinct(rs) ==> Distinct(r)
    ensures forall x | x != name :: x in r <==> x in rs
  {
    if name in rs then rs else rs + [name]
  }

  function AddAll(rs: seq<string>, names: seq<string>): seq<string> {
    if names == [] then rs else AddResource(AddAll(rs, names[..|names| - 1]), names[|names| - 1])
  }

  /** Removes the first occurrence. */
  function RemoveResource(rs: seq<string>, name: string): seq<string> {
    if rs == [] then [] else if rs[0] == name then rs[1..] else [rs[0]] + RemoveResource(rs[1..], name)
  }

  function RemoveAll(rs: seq<string>, names: seq<string>): seq<string> {
    if names == [] then rs else RemoveResource(RemoveAll(rs, names[..|names| - 1]), names[|names| - 1])
  }

  lemma SplitHead(rs: seq<string>, i: nat)
    requires 0 < i <= |rs|
    ensures [rs[0]] + rs[1..] == rs
    ensures i < |rs| ==> [rs[0]] + (rs[1..][..i - 1] + rs[1..][i..]) == rs[..i] + rs[i + 1..]
  {
  }

  lemma {:induction false} RemoveFirst(rs: seq<string>, name: string, i: nat)
    requires i <= |rs| && (forall j | 0 <= j < i :: rs[j] != name) && (i < |rs| ==> rs[i] == name)
    ensures RemoveResource(rs, name) == if i < |rs| then rs[..i] + rs[i + 1..] else rs
    decreases |rs|
  {
    if i > 0 {
      RemoveFirst(rs[1..], name, i - 1);
      SplitHead(rs, i);
    } else if i < |rs| {
      assert rs[..0] + rs[1..] == rs[1..];
    }
  }

  /** In a list without duplicates, removing the first occurrence removes the name and keeps the order of the rest. */
  lemma RemoveDistinct(rs: seq<string>, name: string)
    requires Distinct(rs)
    ensures Distinct(RemoveResource(rs, name))
    ensures forall x :: x in RemoveResource(rs, name) <==> x in rs && x != name
  {
    hide RemoveResource;
    if i :| 0 <= i < |rs| && rs[i] == name {
      RemoveFirst(rs, name, i);
      DropDistinct(rs, i);
    } else {
      RemoveFirst(rs, name, |rs|);
    }
  }

  lemma DropDistinct(rs: seq<string>, i: nat)
    requires Distinct(rs) && i < |rs|
    ensures Distinct(rs[..i] + rs[i + 1..])
    ensures forall x :: x in rs[..i] + rs[i + 1..] <==> x in rs && x != rs[i]
  {
    var r := rs[..i] + rs[i + 1..];
    assert forall j | 0 <= j < |r| :: r[j] == rs[if j < i then j else j + 1];
    forall x | x in rs && x != rs[i] ensures x in r {
      var j :| 0 <= j < |rs| && rs[j] == x;
      assert r[if j < i then j else j - 1] == x;
    }
  }

  class Kustomization {
    var resources: seq<string>

    constructor (resources: seq<string>)
      ensures this.resources == resources
    {
      this.resources := resources;
    }

    method AddResources(names: seq<string>)
      modifies this
      ensures resources == AddAll(old(resources), names)
    {
      for i := 0 to |names|
        invariant resources == AddAll(old(resources), names[..i])
      {
        assert names[..i + 1][..i] == names[..i];
        if names[i] !in resources { resources := resources + [names[i]]; }
      }
      assert names[..|names|] == names;
    }

    method RemoveOne(name: string)
      modifies this
      ensures resources == RemoveResource(old(resources), name)
    {
      for i := 0 to |resources|
        invariant resources == old(resources) && forall j | 0 <= j < i :: resources[j] != name
      {
        if resources[i] == name {
          RemoveFirst(resources, name, i);
          resources := resources[..i] + resources[i + 1..];
          return;
        }
      }
      RemoveFirst(resources, name, |resources|);
    }

    method RemoveResources(names: seq<string>)
      modifies this
      ensures resources == RemoveAll(old(resources), names)
    {
      for i := 0 to |names|
        invariant resources == RemoveAll(old(resources), names[..i])
      {
        assert names[..i + 1][..i] == names[..i];
        RemoveOne(names[i]);
      }
      assert names[..|names|] == names;
    }
  }

  // ---------------------------------------------------------------- the chain of kustomizations

  function ResourcesAt(files: Files, dir: Path): seq<string> {
    var k := dir + [KUST];
    if k in files && files[k].Kust? then files[k].resources else []
  }

  /** Makes the kustomization of a directory list a child. */
  function ListIn(files: Files, dir: Path, child: string): Files {
    files[dir + [KUST] := Kust(AddResource(ResourcesAt(files, dir), child))]
  }

  /** The kustomization file of the directory cannot be parsed as one. */
  predicate Broken(files: Files, dir: Path) { dir + [KUST] in files && !files[dir + [KUST]].Kust? }

  /** Walks up from p to the root, or to the first kustomization that is broken. */
  function Chained(files: Files, p: Path): Files
    decreases |p|
  {
    if p == [] || Broken(files, p[..|p| - 1]) then files
    else Chained(ListIn(files, p[..|p| - 1], p[|p| - 1]), p[..|p| - 1])
  }

  /** No kustomization file on the way up is broken. */
  predicate ChainReadable(files: Files, p: Path) { forall i | 0 <= i < |p| :: !Broken(files, p[..i]) }

  /** k is the kustomization file of a proper ancestor of p. */
  predicate OnChain(p: Path, k: Path) { k != [] && |k| <= |p| && k == p[..|k| - 1] + [KUST] }

  /** The walk touches only the kustomization files of the ancestors. */
  lemma {:induction false} ChainFrame(files: Files, p: Path, k: Path)
    requires !OnChain(p, k)
    ensures k in Chained(files, p) <==> k in files
    ensures k in files ==> Chained(files, p)[k] == files[k]
    decreases |p|
  {
    if p != [] && !Broken(files, p[..|p| - 1]) {
      var q := p[..|p| - 1];
      assert |q + [KUST]| == |p| && p[..|p| - 1] == q;
      assert 0 < |k| <= |q| ==> q[..|k| - 1] == p[..|k| - 1];
      ChainFrame(ListIn(files, q, p[|p| - 1]), q, k);
    }
  }

  /** The walk adds to each ancestor's list its next component, once, keeping the earlier entries in order. */
  lemma {:induction false} ChainAt(files: Files, p: Path, i: nat)
    requires i < |p| && ChainReadable(files, p)
    ensures p[..i] + [KUST] in Chained(files, p)
    ensures Chained(files, p)[p[..i] + [KUST]] == Kust(AddResource(ResourcesAt(files, p[..i]), p[i]))
    decreases |p|
  {
    hide ChainReadable;
    var q := p[..|p| - 1];
    var g := ListIn(files, q, p[|p| - 1]);
    ReadableUp(files, p);
    if i < |q| {
      assert q[..i] == p[..i] && q[i] == p[i];
      assert |p[..i] + [KUST]| != |q + [KUST]|;
      ChainAt(g, q, i);
    } else {
      assert p[..i] == q;
      ChainFrame(g, q, q + [KUST]);
    }
  }

  /** Running the walk again changes nothing, even when it stops early. */
  lemma {:induction false} ChainIdempotent(files: Files, p: Path)
    ensures Chained(Chained(files, p), p) == Chained(files, p)
    decreases |p|
  {
    if p != [] && !Broken(files, p[..|p| - 1]) {
      var q, x := p[..|p| - 1], p[|p| - 1];
      var f := ListIn(files, q, x);
      var g := Chained(f, q);
      ChainFrame(f, q, q + [KUST]);
      assert ListIn(g, q, x) == g;
      ChainIdempotent(f, q);
    }
  }

  /** Taking one step up leaves the readability of the remaining way as it was. */
  lemma ReadableUp(files: Files, p: Path)
    requires p != []
    ensures
      var q := p[..|p| - 1];
      ChainReadable(files, p) <==> !Broken(files, q) && ChainReadable(ListIn(files, q, p[|p| - 1]), q)
  {
    var n, q := |p| - 1, p[..|p| - 1];
    var g := ListIn(files, q, p[n]);
    forall i | 0 <= i < n ensures q[..i] == p[..i] && (Broken(g, q[..i]) <==> Broken(files, p[..i])) {
      assert q[..i] == p[..i];
      assert |q[..i] + [KUST]| == i + 1 && |q + [KUST]| == n + 1;
    }
    assert p[..n] == q;
    if ChainReadable(files, p) { assert !Broken(files, p[..n]); }
  }

  lemma RootReadable(files: Files)
    ensures ChainReadable(files, [])
  {
  }

  lemma AddOne(rs: seq<string>, name: string)
    ensures AddAll(rs, [name]) == AddResource(rs, name)
  {
    assert [name][..0] == [];
  }

  // ---------------------------------------------------------------- installing

  predicate Under(dir: Path, p: Path) { dir <= p }

  /** RemoveDir. */
  function Cleared(files: Files, dir: Path): Files { map p | p in files && !Under(dir, p) :: files[p] }

  /** A rendered application; data and resources come in the order in which the maps are iterated. */
  datatype App = App(cfg: Config, data: seq<(string, string)>, resources: seq<(string, string)>)

  predicate Forbidden(name: string) { name == CONFIG || name == KUST || name == RESOURCES }

  function Write(files: Files, dir: Path, items: seq<(string, string)>): Files {
    if items == [] then files
    else Write(files, dir, items[..|items| - 1])[dir + [items[|items| - 1].0] := Blob(items[|items| - 1].1)]
  }

  /** The items before the first forbidden name. */
  function Allowed(items: seq<(string, string)>): (n: nat)
    ensures n <= |items| && (n < |items| ==> Forbidden(items[n].0))
    ensures forall i | 0 <= i < n :: !Forbidden(items[i].0)
  {
    if items == [] then 0 else if Forbidden(items[0].0) then 0 else 1 + Allowed(items[1..])
  }

  function NamesOf(items: seq<(string, string)>): seq<string> {
    seq(|items|, i requires 0 <= i < |items| => items[i].0)
  }

  /** The files after the configuration and the data are written. */
  function Prepared(files: Files, dir: Path, app: App): Files {
    var base := Cleared(files, dir)[dir + [YAML] := Instance(app.cfg)][dir + [CONFIG] := Instance(app.cfg)];
    Write(base, dir, app.data[..Allowed(app.data)])
  }

  /** No data file has a forbidden name. */
  predicate Installs(app: App) { Allowed(app.data) == |app.data| }

  /** InstallApp succeeds. */
  predicate InstallOk(files: Files, dir: Path, app: App) {
    Installs(app) && ChainReadable(Prepared(files, dir, app), dir + [RESOURCES])
  }

  /** InstallApp; a forbidden name stops it after the data written so far, a broken kustomization on the way up. */
  function Installed(files: Files, dir: Path, app: App): Files {
    var ready, sub := Prepared(files, dir, app), dir + [RESOURCES];
    if !Installs(app) then ready
    else if !InstallOk(files, dir, app) then Chained(ready, sub)
    else Write(Chained(ready, sub), sub, app.resources)[sub + [KUST] := Kust(AddAll([], NamesOf(app.resources)))]
  }

  // ---------------------------------------------------------------- what a manager sees

  function ConfigAt(files: Files, dir: Path): Option<Config> {
    var p := dir + [CONFIG];
    if p in files && files[p].Instance? then Some(files[p].cfg) else None
  }

  lemma Reserved()
    ensures KUST != CONFIG && KUST != RESOURCES && CONFIG != RESOURCES && KUST != YAML && CONFIG != YAML
  {
    assert |KUST| == 18 && |CONFIG| == 11 && |RESOURCES| == 9 && |YAML| == 11;
    assert CONFIG[7] == 'j' && YAML[7] == 'y';
  }

  lemma {:induction false} WriteFrame(files: Files, dir: Path, items: seq<(string, string)>, k: Path)
    requires forall i | 0 <= i < |items| :: k != dir + [items[i].0]
    ensures (k in Write(files, dir, items) <==> k in files) && (k in files ==> Write(files, dir, items)[k] == files[k])
  {
    if items != [] {
      WriteFrame(files, dir, items[..|items| - 1], k);
      assert k != dir + [items[|items| - 1].0];
    }
  }

  lemma LastDiffers(a: Path, x: string, b: Path, y: string)
    requires x != y
    ensures a + [x] != b + [y]
  {
    assert (a + [x])[|a + [x]| - 1] == x && (b + [y])[|b + [y]| - 1] == y;
  }

  lemma StepDiffers(root: Path, a: string, b: string, k: Path)
    requires a != b && Under(root + [a], k)
    ensures !Under(root + [b], k)
  {
    assert k[|root|] == (root + [a])[|root|] == a;
    assert (root + [b])[|root|] == b;
  }

  /** Installing changes nothing outside the directory but the kustomizations above it. */
  lemma InstallOutside(files: Files, dir: Path, app: App, k: Path)
    requires !Under(dir, k) && !OnChain(dir + [RESOURCES], k)
    ensures k in Installed(files, dir, app) <==> k in files
    ensures k in files ==> Installed(files, dir, app)[k] == files[k]
  {
    hide Prepared, Write, Chained, ChainReadable;
    var ready, sub := Prepared(files, dir, app), dir + [RESOURCES];
    PreparedAt(files, dir, app, k);
    if Installs(app) {
      OutsideFrame(dir, sub, k);
      ChainFrame(ready, sub, k);
      WriteFrame(Chained(ready, sub), sub, app.resources, k);
    }
  }

  /** Installing one instance leaves the files of every other instance alone. */
  lemma InstallFrame(files: Files, root: Path, id: string, app: App, other: string, k: Path)
    requires id != KUST && other != KUST && other != id && Under(root + [other], k)
    ensures (k in Installed(files, root + [id], app) <==> k in files)
    ensures k in files ==> Installed(files, root + [id], app)[k] == files[k]
  {
    hide Installed;
    StepDiffers(root, other, id, k);
    OffChain(root, id, other, k);
    InstallOutside(files, root + [id], app, k);
  }

  lemma OutsideFrame(dir: Path, sub: Path, k: Path)
    requires !Under(dir, k) && dir <= sub
    ensures forall x: string :: k != sub + [x]
  {
  }

  lemma OffChain(root: Path, id: string, other: string, k: Path)
    requires other != id && other != KUST && Under(root + [other], k)
    ensures !OnChain(root + [id] + [RESOURCES], k)
  {
    var p := root + [id] + [RESOURCES];
    assert k[|root|] == (root + [other])[|root|] == other;
    assert |k| <= |p| ==> (p[..|k| - 1] + [KUST])[|root|] == if |k| == |root| + 1 then KUST else id;
  }

  lemma PreparedAt(files: Files, dir: Path, app: App, k: Path)
    requires !Under(dir, k)
    ensures k in Prepared(files, dir, app) <==> k in files
    ensures k in files ==> Prepared(files, dir, app)[k] == files[k]
  {
    OutsideFrame(dir, dir, k);
    WriteFrame(Cleared(files, dir)[dir + [YAML] := Instance(app.cfg)][dir + [CONFIG] := Instance(app.cfg)],
               dir, app.data[..Allowed(app.data)], k);
  }

  lemma PreparedConfig(files: Files, dir: Path, app: App)
    ensures ConfigAt(Prepared(files, dir, app), dir) == Some(app.cfg)
  {
    var items := app.data[..Allowed(app.data)];
    forall i | 0 <= i < |items| ensures dir + [CONFIG] != dir + [items[i].0] {
      LastDiffers(dir, CONFIG, dir, items[i].0);
    }
    WriteFrame(Cleared(files, dir)[dir + [YAML] := Instance(app.cfg)][dir + [CONFIG] := Instance(app.cfg)],
               dir, items, dir + [CONFIG]);
  }

  lemma LongerDiffers(a: Path, x: string, b: Path, y: string)
    requires |a| != |b|
    ensures a + [x] != b + [y]
  {
    assert |a + [x]| == |a| + 1 && |b + [y]| == |b| + 1;
  }

  /** Writing the resources touches only the resources directory itself. */
  lemma ResourceStage(g: Files, sub: Path, items: seq<(string, string)>, last: File, k: Path)
    requires |k| != |sub| + 1
    ensures
      var h := Write(g, sub, items)[sub + [KUST] := last];
      (k in h <==> k in g) && (k in g ==> h[k] == g[k])
  {
    forall x: string ensures k != sub + [x] {
      assert |sub + [x]| == |sub| + 1;
    }
    WriteFrame(g, sub, items, k);
  }

  /** The instance that was installed has its configuration. */
  lemma InstalledConfig(files: Files, dir: Path, app: App)
    ensures ConfigAt(Installed(files, dir, app), dir) == Some(app.cfg)
  {
    hide Prepared, Write, Chained, AddAll, Cleared;
    var ready, sub, k := Prepared(files, dir, app), dir + [RESOURCES], dir + [CONFIG];
    PreparedConfig(files, dir, app);
    if Installs(app) {
      Reserved();
      if 0 < |k| <= |sub| { LastDiffers(dir, CONFIG, sub[..|k| - 1], KUST); }
      ChainFrame(ready, sub, k);
      ResourceStage(Chained(ready, sub), sub, app.resources, Kust(AddAll([], NamesOf(app.resources))), k);
    }
  }

  /** A successful installation lists the instance once; one stopped by a forbidden name leaves the list alone. */
  lemma InstalledListing(files: Files, root: Path, id: string, app: App)
    requires id != KUST
    ensures InstallOk(files, root + [id], app) ==>
      ResourcesAt(Installed(files, root + [id], app), root) == AddResource(ResourcesAt(files, root), id)
    ensures !Installs(app) ==> ResourcesAt(Installed(files, root + [id], app), root) == ResourcesAt(files, root)
  {
    hide Prepared, Write, Chained, AddAll, Cleared, ChainReadable;
    var dir, k := root + [id], root + [KUST];
    var ready, sub := Prepared(files, dir, app), dir + [RESOURCES];
    LastDiffers(root, id, root, KUST);
    assert !Under(dir, k) by { assert |dir| == |k|; }
    PreparedAt(files, dir, app, k);
    if InstallOk(files, dir, app) {
      assert sub[..|root|] == root && sub[|root|] == id;
      ChainAt(ready, sub, |root|);
      ResourceStage(Chained(ready, sub), sub, app.resources, Kust(AddAll([], NamesOf(app.resources))), k);
    }
  }

  /** Remove: the directory goes first, then the name is taken off the list. */
  function Removed(files: Files, root: Path, id: string): Files {
    var rest := Cleared(files, root + [id]);
    var k := root + [KUST];
    if k in rest && rest[k].Kust? then rest[k := Kust(RemoveResource(rest[k].resources, id))] else rest
  }

  /** Removing takes the name off the list and everything out of the directory. */
  lemma RemovedEffect(files: Files, root: Path, id: string)
    requires id != KUST
    ensures ResourcesAt(Removed(files, root, id), root) == RemoveResource(ResourcesAt(files, root), id)
    ensures ConfigAt(Removed(files, root, id), root + [id]) == None
    ensures forall k | k in Removed(files, root, id) :: !Under(root + [id], k)
  {
    Reserved();
    LastDiffers(root, id, root, KUST);
    assert !Under(root + [id], root + [KUST]) by { assert |root + [id]| == |root + [KUST]|; }
    LongerDiffers(root, KUST, root + [id], CONFIG);
  }

  /** Removing changes nothing outside the directory but the list. */
  lemma RemovedOutside(files: Files, root: Path, id: string, k: Path)
    requires !Under(root + [id], k) && k != root + [KUST]
    ensures (k in Removed(files, root, id) <==> k in files) && (k in files ==> Removed(files, root, id)[k] == files[k])
  {
  }

  lemma RemovedFrame(files: Files, root: Path, id: string, other: string, k: Path)
    requires id != KUST && other != KUST && other != id && Under(root + [other], k)
    ensures (k in Removed(files, root, id) <==> k in files) && (k in files ==> Removed(files, root, id)[k] == files[k])
  {
    StepDiffers(root, other, id, k);
    assert k[|root|] == (root + [other])[|root|] == other && (root + [KUST])[|root|] == KUST;
    RemovedOutside(files, root, id, k);
  }

  // ---------------------------------------------------------------- what an installation writes

  /** The last of the items with its name, which is the one that stays. */
  predicate LastOf(items: seq<(string, string)>, i: nat)
    requires i < |items|
  {
    forall j | i < j < |items| :: items[j].0 != items[i].0
  }

  lemma {:induction false} WriteAt(files: Files, dir: Path, items: seq<(string, string)>, i: nat)
    requires i < |items| && LastOf(items, i)
    ensures
      var k := dir + [items[i].0];
      k in Write(files, dir, items) && Write(files, dir, items)[k] == Blob(items[i].1)
  {
    var n, init := |items| - 1, items[..|items| - 1];
    if i < n {
      assert init[i] == items[i] && forall j | i < j < n :: init[j] == items[j];
      WriteAt(files, dir, init, i);
      LastDiffers(dir, items[n].0, dir, items[i].0);
    }
  }

  lemma {:induction false} WriteOnly(files: Files, dir: Path, items: seq<(string, string)>, k: Path)
    requires k in Write(files, dir, items)
    ensures k in files || exists i :: 0 <= i < |items| && k == dir + [items[i].0]
  {
    if items != [] {
      var n, init := |items| - 1, items[..|items| - 1];
      if k != dir + [items[n].0] {
        WriteOnly(files, dir, init, k);
        if k !in files {
          var i :| 0 <= i < |init| && k == dir + [init[i].0];
          assert items[i] == init[i];
        }
      }
    }
  }

  lemma {:induction false} AddAllNames(names: seq<string>)
    ensures Distinct(AddAll([], names)) && (forall x :: x in AddAll([], names) <==> x in names)
  {
    hide AddResource, Distinct;
    if names == [] {
      NoneDistinct();
    } else {
      var init, last := names[..|names| - 1], names[|names| - 1];
      AddAllNames(init);
      assert names == init + [last];
    }
  }

  lemma NoneDistinct()
    ensures Distinct<string>([])
  {
  }

  lemma {:induction false} AddAllOrder(names: seq<string>)
    requires Distinct(names)
    ensures AddAll([], names) == names
  {
    if names != [] {
      var init := names[..|names| - 1];
      assert forall i | 0 <= i < |init| :: init[i] == names[i];
      AddAllOrder(init);
    }
  }

  /** A successful installation writes every resource with its contents. */
  lemma InstalledResource(files: Files, dir: Path, app: App, i: nat)
    requires InstallOk(files, dir, app) && i < |app.resources| && LastOf(app.resources, i) && app.resources[i].0 != KUST
    ensures
      var k := dir + [RESOURCES] + [app.resources[i].0];
      k in Installed(files, dir, app) && Installed(files, dir, app)[k] == Blob(app.resources[i].1)
  {
    hide Prepared, Write, Chained, AddAll, ChainReadable;
    var ready, sub := Prepared(files, dir, app), dir + [RESOURCES];
    WriteAt(Chained(ready, sub), sub, app.resources, i);
    LastDiffers(sub, app.resources[i].0, sub, KUST);
  }

  /**
    It lists exactly the names of the resources, once each and in their order, and the instance's own
    kustomization lists exactly the resources directory.
  */
  lemma InstalledLists(files: Files, dir: Path, app: App)
    requires InstallOk(files, dir, app)
    ensures
      var f, sub := Installed(files, dir, app), dir + [RESOURCES];
      && sub + [KUST] in f && f[sub + [KUST]].Kust? && Distinct(f[sub + [KUST]].resources)
      && (forall x :: x in f[sub + [KUST]].resources <==> x in NamesOf(app.resources))
      && (Distinct(NamesOf(app.resources)) ==> f[sub + [KUST]].resources == NamesOf(app.resources))
      && dir + [KUST] in f && f[dir + [KUST]] == Kust([RESOURCES])
  {
    hide Prepared, Write, Chained, AddAll, ChainReadable;
    var ready, sub := Prepared(files, dir, app), dir + [RESOURCES];
    AddAllNames(NamesOf(app.resources));
    if Distinct(NamesOf(app.resources)) { AddAllOrder(NamesOf(app.resources)); }
    PreparedNoKust(files, dir, app);
    assert sub[..|dir|] == dir && sub[|dir|] == RESOURCES;
    ChainAt(ready, sub, |dir|);
    assert |dir + [KUST]| == |dir| + 1 && |sub| == |dir| + 1;
    ResourceStage(Chained(ready, sub), sub, app.resources, Kust(AddAll([], NamesOf(app.resources))), dir + [KUST]);
  }

  /** The walk and the resources leave what was prepared in the directory itself alone. */
  lemma AfterPrepared(files: Files, dir: Path, app: App, name: string)
    requires name != KUST
    ensures
      var k, ready := dir + [name], Prepared(files, dir, app);
      && (k in Installed(files, dir, app) <==> k in ready)
      && (k in ready ==> Installed(files, dir, app)[k] == ready[k])
  {
    hide Prepared, Write, Chained, AddAll, ChainReadable;
    var ready, sub, k := Prepared(files, dir, app), dir + [RESOURCES], dir + [name];
    if 0 < |k| <= |sub| { LastDiffers(dir, name, sub[..|k| - 1], KUST); }
    ChainFrame(ready, sub, k);
    ResourceStage(Chained(ready, sub), sub, app.resources, Kust(AddAll([], NamesOf(app.resources))), k);
  }

  /** Whether it succeeds or not, an installation writes the data up to the first forbidden name. */
  lemma InstalledData(files: Files, dir: Path, app: App, i: nat)
    requires i < Allowed(app.data) && LastOf(app.data[..Allowed(app.data)], i)
    ensures
      var k := dir + [app.data[i].0];
      k in Installed(files, dir, app) && Installed(files, dir, app)[k] == Blob(app.data[i].1)
  {
    hide Installed, Write;
    var items := app.data[..Allowed(app.data)];
    assert items[i] == app.data[i];
    WriteAt(Cleared(files, dir)[dir + [YAML] := Instance(app.cfg)][dir + [CONFIG] := Instance(app.cfg)], dir, items, i);
    AfterPrepared(files, dir, app, app.data[i].0);
  }

  /** The configuration is also there as YAML, unless the data bring a file of that name. */
  lemma InstalledYaml(files: Files, dir: Path, app: App)
    requires forall i | 0 <= i < Allowed(app.data) :: app.data[i].0 != YAML
    ensures
      var k := dir + [YAML];
      k in Installed(files, dir, app) && Installed(files, dir, app)[k] == Instance(app.cfg)
  {
    hide Installed, Write;
    var items := app.data[..Allowed(app.data)];
    var base := Cleared(files, dir)[dir + [YAML] := Instance(app.cfg)][dir + [CONFIG] := Instance(app.cfg)];
    Reserved();
    LastDiffers(dir, YAML, dir, CONFIG);
    forall i | 0 <= i < |items| ensures dir + [YAML] != dir + [items[i].0] {
      LastDiffers(dir, YAML, dir, items[i].0);
    }
    WriteFrame(base, dir, items, dir + [YAML]);
    AfterPrepared(files, dir, app, YAML);
  }

  /** What an installation may leave under its directory. */
  ghost predicate Belonging(dir: Path, app: App, k: Path) {
    || k == dir + [YAML] || k == dir + [CONFIG] || k == dir + [KUST] || k == dir + [RESOURCES] + [KUST]
    || (exists i :: 0 <= i < |app.data| && k == dir + [app.data[i].0])
    || (exists i :: 0 <= i < |app.resources| && k == dir + [RESOURCES] + [app.resources[i].0])
  }

  lemma PreparedOnly(files: Files, dir: Path, app: App, k: Path)
    requires k in Prepared(files, dir, app) && Under(dir, k)
    ensures Belonging(dir, app, k)
  {
    hide Write;
    var items := app.data[..Allowed(app.data)];
    var base := Cleared(files, dir)[dir + [YAML] := Instance(app.cfg)][dir + [CONFIG] := Instance(app.cfg)];
    WriteOnly(base, dir, items, k);
    if i :| 0 <= i < |items| && k == dir + [items[i].0] { assert items[i] == app.data[i]; }
  }

  /** Nothing else lies under the directory of an instance after its installation. */
  lemma InstalledOnly(files: Files, root: Path, id: string, app: App, k: Path)
    requires id != KUST && k in Installed(files, root + [id], app) && Under(root + [id], k)
    ensures Belonging(root + [id], app, k)
  {
    hide Prepared, Write, Chained, AddAll, ChainReadable;
    var dir, sub := root + [id], root + [id] + [RESOURCES];
    var ready := Prepared(files, dir, app);
    if InstallOk(files, dir, app) && k != sub + [KUST] { WriteOnly(Chained(ready, sub), sub, app.resources, k); }
    if OnChain(sub, k) {
      ChainUnder(root, id, k);
    } else {
      ChainFrame(ready, sub, k);
      if k in ready { PreparedOnly(files, dir, app, k); }
    }
  }

  lemma ChainUnder(root: Path, id: string, k: Path)
    requires id != KUST && OnChain(root + [id] + [RESOURCES], k) && Under(root + [id], k)
    ensures k == root + [id] + [KUST]
  {
    var dir, sub := root + [id], root + [id] + [RESOURCES];
    assert dir[|dir| - 1] == id && k[|k| - 1] == KUST;
    assert sub[..|dir|] == dir;
  }

  // ---------------------------------------------------------------- runs

  datatype Call = Install(id: string, app: App) | Update(id: string, app: App) | Remove(id: string)

  /** The configuration of the environment, which Install and Update read first. */
  predicate HasEnv(files: Files) { [YAML] in files && files[[YAML]].Env? }

  /** The call gets as far as installing. */
  predicate Starts(files: Files, root: Path, c: Call) {
    !c.Remove? && HasEnv(files) && (c.Update? ==> ConfigAt(files, root + [c.id]).Some?)
  }

  function After(files: Files, root: Path, c: Call): Files {
    if c.Remove? then Removed(files, root, c.id)
    else if Starts(files, root, c) then Installed(files, root + [c.id], c.app)
    else files
  }

  /** Whether the call reports success. */
  predicate Succeeds(files: Files, root: Path, c: Call) {
    if c.Remove? then HasList(files, root) else Starts(files, root, c) && InstallOk(files, root + [c.id], c.app)
  }

  function Serve(files: Files, root: Path, calls: seq<Call>): Files {
    if calls == [] then files else After(Serve(files, root, calls[..|calls| - 1]), root, calls[|calls| - 1])
  }

  /** An instance that is not named like one of the files beside it. */
  predicate Plain(root: Path, id: string) { id != KUST && (root == [] ==> id != YAML) }

  /**
    What a user of the manager thinks of: whether there is an environment at all, the listed instances in
    order, and the configurations.
  */
  datatype Registry = Registry(env: bool, listed: seq<string>, configs: map<string, Config>)

  function Register(r: Registry, id: string, app: App): Registry {
    r.(listed := if Installs(app) then AddResource(r.listed, id) else r.listed, configs := r.configs[id := app.cfg])
  }

  function RegistryAfter(r: Registry, c: Call): Registry {
    match c
    case Install(id, app) => if r.env then Register(r, id, app) else r
    case Update(id, app) => if r.env && id in r.configs then Register(r, id, app) else r
    case Remove(id) => r.(listed := RemoveResource(r.listed, id), configs := r.configs - {id})
  }

  function RegistryServe(r: Registry, calls: seq<Call>): Registry {
    if calls == [] then r else RegistryAfter(RegistryServe(r, calls[..|calls| - 1]), calls[|calls| - 1])
  }

  /** The kustomization files from the root of the repository down to the manager's root are not broken. */
  predicate Readable(files: Files, root: Path) { forall i | 0 <= i <= |root| :: !Broken(files, root[..i]) }

  /** A kustomization above the instance's own directory. */
  lemma AboveInstance(root: Path, id: string, i: nat)
    requires id != KUST && i <= |root|
    ensures
      var k, dir, sub := root[..i] + [KUST], root + [id], root + [id] + [RESOURCES];
      !Under(dir, k) && |k| != |sub| + 1 && i < |sub| && sub[..i] == root[..i]
  {
    var k, dir := root[..i] + [KUST], root + [id];
    assert |k| <= |dir| && k[|k| - 1] == KUST && dir[|dir| - 1] == id;
  }

  lemma ReadableAt(files: Files, root: Path, c: Call, i: nat)
    requires Readable(files, root) && c.id != KUST && i <= |root|
    ensures !Broken(After(files, root, c), root[..i])
  {
    hide Prepared, Write, Chained, AddAll, AddResource, RemoveResource, ChainReadable;
    var k, dir := root[..i] + [KUST], root + [c.id];
    AboveInstance(root, c.id, i);
    if !c.Remove? && Starts(files, root, c) {
      var ready, sub := Prepared(files, dir, c.app), dir + [RESOURCES];
      PreparedAt(files, dir, c.app, k);
      PreparedReadable(files, root, c.id, c.app);
      ChainAt(ready, sub, i);
      ResourceStage(Chained(ready, sub), sub, c.app.resources, Kust(AddAll([], NamesOf(c.app.resources))), k);
    }
  }

  /** The file tree looks like the registry. */
  ghost predicate Refines(files: Files, root: Path, r: Registry) {
    && Readable(files, root)
    && HasEnv(files) == r.env
    && ResourcesAt(files, root) == r.listed
    && Distinct(r.listed)
    && (forall id | id in r.listed :: id in r.configs && Plain(root, id))
    && (forall id | id != KUST :: ConfigAt(files, root + [id]) == if id in r.configs then Some(r.configs[id]) else None)
  }

  lemma OthersKept(files: Files, root: Path, c: Call, other: string)
    requires c.id != KUST && other != KUST && other != c.id
    ensures ConfigAt(After(files, root, c), root + [other]) == ConfigAt(files, root + [other])
  {
    hide Installed, Removed;
    var k := root + [other] + [CONFIG];
    if c.Remove? {
      RemovedFrame(files, root, c.id, other, k);
    } else {
      InstallFrame(files, root, c.id, c.app, other, k);
    }
  }

  lemma EnvKept(files: Files, root: Path, c: Call)
    requires Plain(root, c.id)
    ensures HasEnv(After(files, root, c)) == HasEnv(files)
  {
    hide Prepared, Write, Chained, AddAll, AddResource, RemoveResource, ChainReadable;
    var k, dir := [YAML], root + [c.id];
    Reserved();
    LastDiffers([], YAML, root, KUST);
    assert [] + [YAML] == [YAML];
    assert !Under(dir, k) by { assert root == [] ==> dir[0] == c.id; }
    if !c.Remove? && Starts(files, root, c) {
      var ready, sub := Prepared(files, dir, c.app), dir + [RESOURCES];
      PreparedAt(files, dir, c.app, k);
      assert !OnChain(sub, k) by { assert (sub[..0] + [KUST])[0] == KUST; }
      ChainFrame(ready, sub, k);
      ResourceStage(Chained(ready, sub), sub, c.app.resources, Kust(AddAll([], NamesOf(c.app.resources))), k);
    }
  }

  lemma {:induction false} StepRefines(files: Files, root: Path, r: Registry, c: Call)
    requires Refines(files, root, r) && Plain(root, c.id)
    ensures Refines(After(files, root, c), root, RegistryAfter(r, c))
  {
    hide Installed, Removed, RemoveResource, ConfigAt, ResourcesAt, HasEnv, ChainReadable, Broken, Prepared;
    var after, next := After(files, root, c), RegistryAfter(r, c);
    EnvKept(files, root, c);
    if c.Remove? {
      RemovedEffect(files, root, c.id);
      RemoveDistinct(r.listed, c.id);
    } else {
      InstalledConfig(files, root + [c.id], c.app);
      InstalledListing(files, root, c.id, c.app);
      PreparedReadable(files, root, c.id, c.app);
    }
    forall i | 0 <= i <= |root| ensures !Broken(after, root[..i]) {
      ReadableAt(files, root, c, i);
    }
    forall id | id != KUST
      ensures ConfigAt(after, root + [id]) == if id in next.configs then Some(next.configs[id]) else None
    {
      if id != c.id { OthersKept(files, root, c, id); }
    }
  }

  /**
    In every run of Install, Update and Remove, with appDir equal to root/instanceId, from every tree that
    looks like a registry: the list of instances has no duplicates, every listed instance has its
    configuration, and both are exactly what the calls make of that registry.
  */
  lemma {:induction false} EveryRunRefines(files: Files, root: Path, r: Registry, calls: seq<Call>)
    requires Refines(files, root, r) && forall i | 0 <= i < |calls| :: Plain(root, calls[i].id)
    ensures Refines(Serve(files, root, calls), root, RegistryServe(r, calls))
  {
    hide Refines, After, RegistryAfter;
    if calls != [] {
      var init := calls[..|calls| - 1];
      EveryRunRefines(files, root, r, init);
      StepRefines(Serve(files, root, init), root, RegistryServe(r, init), calls[|calls| - 1]);
    }
  }

  // ---------------------------------------------------------------- which trees look like a registry

  /** k is the configuration of an instance. */
  predicate IsConfig(files: Files, root: Path, k: Path) {
    && |k| == |root| + 2 && k == root + [k[|root|]] + [CONFIG] && k[|root|] != KUST
    && k in files && files[k].Instance?
  }

  function InstancesIn(files: Files, root: Path): set<string> {
    set k | k in files && IsConfig(files, root, k) :: k[|root|]
  }

  /** The registry that a tree looks like, if any. */
  function RegistryOf(files: Files, root: Path): Registry {
    Registry(HasEnv(files), ResourcesAt(files, root),
      map id | id in InstancesIn(files, root) && ConfigAt(files, root + [id]).Some?
        :: ConfigAt(files, root + [id]).value)
  }

  lemma InstanceIn(files: Files, root: Path, id: string)
    requires id != KUST
    ensures id in InstancesIn(files, root) <==> ConfigAt(files, root + [id]).Some?
  {
    var k := root + [id] + [CONFIG];
    assert |k| == |root| + 2 && k[|root|] == id;
  }

  /** No broken kustomization on the way down, and a list without duplicates of instances that have configurations. */
  predicate Consistent(files: Files, root: Path) {
    && Readable(files, root)
    && Distinct(ResourcesAt(files, root))
    && forall id | id in ResourcesAt(files, root) :: Plain(root, id) && ConfigAt(files, root + [id]).Some?
  }

  lemma OwnConfig(files: Files, root: Path, id: string)
    requires id != KUST
    ensures
      var configs := RegistryOf(files, root).configs;
      ConfigAt(files, root + [id]) == if id in configs then Some(configs[id]) else None
  {
    hide InstancesIn;
    InstanceIn(files, root, id);
  }

  lemma RefinesConsistent(files: Files, root: Path, r: Registry)
    requires Refines(files, root, r)
    ensures Consistent(files, root)
  {
    hide Readable, HasEnv, ConfigAt, ResourcesAt;
  }

  /** A tree looks like a registry, namely its own, exactly when it is consistent. */
  lemma ConsistentExactly(files: Files, root: Path)
    ensures Consistent(files, root) <==> Refines(files, root, RegistryOf(files, root))
  {
    hide Readable, HasEnv, ConfigAt, ResourcesAt, InstancesIn;
    var r := RegistryOf(files, root);
    if Refines(files, root, r) { RefinesConsistent(files, root, r); }
    forall id | id != KUST
      ensures ConfigAt(files, root + [id]) == if id in r.configs then Some(r.configs[id]) else None
    {
      OwnConfig(files, root, id);
    }
  }

  /** A tree with no list at the root and no configuration one level below looks like no instances. */
  lemma FreshRefines(files: Files, root: Path)
    requires Readable(files, root) && root + [KUST] !in files
    requires forall id: string :: root + [id] + [CONFIG] !in files
    ensures Refines(files, root, Registry(HasEnv(files), [], map[]))
  {
  }

  /** The repository of a new environment after its first commit. */
  function NewRepository(readme: string): Files { map[["README.md"] := Blob(readme), [KUST] := Kust([])] }

  /** What the second commit adds when it succeeds; its error is dropped, and it may leave any part of this. */
  function Committed(files: Files, env: Option<string>, charts: Option<string>, linked: bool): Files {
    var f := if env.Some? then files[[YAML] := Env(env.value)] else files;
    var g := if charts.Some? then f[["pcloud-charts.yaml"] := Blob(charts.value)] else f;
    if linked then ListIn(g, [], "pcloud-charts.yaml") else g
  }

  /** There are files at the top of the repository only, and no broken list among them. */
  predicate Flat(files: Files) { (forall k | k in files :: |k| == 1) && !Broken(files, []) }

  lemma PutFlat(files: Files, name: string, f: File)
    requires Flat(files) && (name == KUST ==> f.Kust?)
    ensures Flat(files[[name] := f])
    ensures name != YAML ==> HasEnv(files[[name] := f]) == HasEnv(files)
    ensures name == YAML ==> HasEnv(files[[name] := f]) == f.Env?
  {
    assert [] + [KUST] == [KUST] && [name][0] == name && [KUST][0] == KUST && [YAML][0] == YAML;
  }

  lemma CommittedFlat(files: Files, env: Option<string>, charts: Option<string>, linked: bool)
    requires Flat(files) && !HasEnv(files)
    ensures Flat(Committed(files, env, charts, linked)) && HasEnv(Committed(files, env, charts, linked)) == env.Some?
  {
    hide Flat, HasEnv;
    Reserved();
    NewEnvironmentNames();
    var f := if env.Some? then files[[YAML] := Env(env.value)] else files;
    if env.Some? { PutFlat(files, YAML, Env(env.value)); }
    var g := if charts.Some? then f[["pcloud-charts.yaml"] := Blob(charts.value)] else f;
    if charts.Some? { PutFlat(f, "pcloud-charts.yaml", Blob(charts.value)); }
    if linked {
      PutFlat(g, KUST, Kust(AddResource(ResourcesAt(g, []), "pcloud-charts.yaml")));
      assert [] + [KUST] == [KUST];
    }
  }

  lemma NewRepositoryFlat(readme: string)
    ensures Flat(NewRepository(readme)) && !HasEnv(NewRepository(readme))
  {
    Reserved();
    NewEnvironmentNames();
    assert [] + [KUST] == [KUST] && ["README.md"][0] == "README.md" && [KUST][0] == KUST && [YAML][0] == YAML;
  }

  /** Such a tree looks like no instances. */
  lemma FlatRefines(files: Files, dir: string)
    requires Flat(files)
    ensures Refines(files, [dir], Registry(HasEnv(files), [], map[]))
  {
    var root := [dir];
    assert |root + [KUST]| == 2;
    forall id: string ensures root + [id] + [CONFIG] !in files { assert |root + [id] + [CONFIG]| == 3; }
    forall i | 0 <= i <= |root| ensures !Broken(files, root[..i]) {
      if i == 0 { assert root[..0] == []; } else { assert root[..1] + [KUST] == root + [KUST]; }
    }
    FreshRefines(files, root);
  }

  /**
    However much of the second commit was done, the repository of a new environment looks like no
    instances; there is an environment exactly when its configuration was written.
  */
  lemma NewEnvironmentRefines(
    readme: string, env: Option<string>, charts: Option<string>, linked: bool, account: string)
    ensures
      var files := Committed(NewRepository(readme), env, charts, linked)[["first-account.yaml"] := Blob(account)];
      Refines(files, ["apps"], Registry(env.Some?, [], map[]))
  {
    hide Flat, HasEnv, Refines, Committed;
    var files := Committed(NewRepository(readme), env, charts, linked);
    NewEnvironmentNames();
    NewRepositoryFlat(readme);
    CommittedFlat(NewRepository(readme), env, charts, linked);
    PutFlat(files, "first-account.yaml", Blob(account));
    FlatRefines(files[["first-account.yaml"] := Blob(account)], "apps");
  }

  lemma NewEnvironmentNames()
    ensures "README.md" != KUST && "pcloud-charts.yaml" != KUST && "first-account.yaml" != KUST && "README.md" != YAML
    ensures "pcloud-charts.yaml" != YAML && "first-account.yaml" != YAML
  {
    assert "pcloud-charts.yaml"[0] == 'p' && "first-account.yaml"[0] == 'f' && KUST[0] == 'k' && YAML[0] == 'c';
    assert "README.md"[0] == 'R';
  }

  /** Without an environment no installation and no update does anything, in any run. */
  lemma {:induction false} NoEnvironment(r: Registry, calls: seq<Call>)
    requires !r.env && forall i | 0 <= i < |calls| :: !calls[i].Remove?
    ensures RegistryServe(r, calls) == r
  {
    if calls != [] { NoEnvironment(r, calls[..|calls| - 1]); }
  }

  // ---------------------------------------------------------------- looking up

  predicate HasList(files: Files, root: Path) { root + [KUST] in files && files[root + [KUST]].Kust? }

  /** Looking up all instances succeeds. */
  predicate Findable(files: Files, root: Path) {
    && HasList(files, root)
    && forall i | 0 <= i < |ResourcesAt(files, root)| :: ConfigAt(files, root + [ResourcesAt(files, root)[i]]).Some?
  }

  /** The list appears with the first installation, and never goes away. */
  lemma ListKept(files: Files, root: Path, c: Call)
    requires c.id != KUST && Readable(files, root)
    ensures HasList(After(files, root, c), root) <==> HasList(files, root) || Succeeds(files, root, c)
  {
    hide Prepared, Write, Chained, AddAll, AddResource, RemoveResource, ChainReadable;
    var k, dir := root + [KUST], root + [c.id];
    AboveInstance(root, c.id, |root|);
    assert root[..|root|] == root;
    if !c.Remove? && Starts(files, root, c) {
      var ready, sub := Prepared(files, dir, c.app), dir + [RESOURCES];
      PreparedAt(files, dir, c.app, k);
      PreparedReadable(files, root, c.id, c.app);
      ChainAt(ready, sub, |root|);
      ResourceStage(Chained(ready, sub), sub, c.app.resources, Kust(AddAll([], NamesOf(c.app.resources))), k);
    }
  }

  /** The i-th call of the run reports success. */
  predicate SucceedsAt(files: Files, root: Path, calls: seq<Call>, i: nat)
    requires i < |calls|
  {
    Succeeds(Serve(files, root, calls[..i]), root, calls[i])
  }

  /**
    After every run from a consistent tree, looking up all instances succeeds exactly when the list was
    there at the start or some call of the run succeeded.
  */
  lemma {:induction false} EveryRunFinds(files: Files, root: Path, calls: seq<Call>)
    requires Consistent(files, root) && forall i | 0 <= i < |calls| :: Plain(root, calls[i].id)
    ensures Findable(Serve(files, root, calls), root) <==>
      HasList(files, root) || exists i :: 0 <= i < |calls| && SucceedsAt(files, root, calls, i)
  {
    hide Refines, Consistent, Findable, HasList, SucceedsAt;
    var r := RegistryOf(files, root);
    ConsistentExactly(files, root);
    EveryRunRefines(files, root, r, calls);
    EveryRunListed(files, root, r, calls);
    RefinesFindable(Serve(files, root, calls), root, RegistryServe(r, calls));
  }

  lemma RefinesFindable(files: Files, root: Path, r: Registry)
    requires Refines(files, root, r)
    ensures Findable(files, root) <==> HasList(files, root)
  {
    hide ConfigAt, ResourcesAt, Readable, HasEnv;
    forall i | 0 <= i < |r.listed| ensures ConfigAt(files, root + [r.listed[i]]).Some? {
      assert r.listed[i] in r.listed;
    }
  }

  lemma {:induction false} EveryRunListed(files: Files, root: Path, r: Registry, calls: seq<Call>)
    requires Refines(files, root, r) && forall i | 0 <= i < |calls| :: Plain(root, calls[i].id)
    ensures HasList(Serve(files, root, calls), root) <==>
      HasList(files, root) || exists i :: 0 <= i < |calls| && SucceedsAt(files, root, calls, i)
  {
    hide HasList, Succeeds, After, Refines;
    if calls != [] {
      var init, n := calls[..|calls| - 1], |calls| - 1;
      EveryRunListed(files, root, r, init);
      EveryRunRefines(files, root, r, init);
      RefinesReadable(Serve(files, root, init), root, RegistryServe(r, init));
      ListKept(Serve(files, root, init), root, calls[n]);
      assert forall i | 0 <= i < n :: init[..i] == calls[..i] && init[i] == calls[i];
      assert forall i | 0 <= i < n :: SucceedsAt(files, root, init, i) <==> SucceedsAt(files, root, calls, i);
      assert SucceedsAt(files, root, calls, n) <==> Succeeds(Serve(files, root, init), root, calls[n]);
    }
  }

  lemma RefinesReadable(files: Files, root: Path, r: Registry)
    requires Refines(files, root, r)
    ensures Readable(files, root)
  {
  }

  lemma WriteNone(files: Files, dir: Path)
    ensures Write(files, dir, []) == files && AddAll([], NamesOf([])) == []
  {
  }

  lemma WriteSnoc(files: Files, dir: Path, items: seq<(string, string)>, i: nat)
    requires i < |items|
    ensures Write(files, dir, items[..i + 1]) == Write(files, dir, items[..i])[dir + [items[i].0] := Blob(items[i].1)]
    ensures NamesOf(items[..i + 1]) == NamesOf(items[..i]) + [items[i].0]
  {
    assert items[..i + 1][..i] == items[..i];
  }

  lemma AddAllSnoc(names: seq<string>, name: string)
    ensures AddAll([], names + [name]) == AddResource(AddAll([], names), name)
  {
    assert (names + [name])[..|names|] == names;
  }

  /** After the data are written, every kustomization above the resources directory can be read. */
  lemma PreparedReadable(files: Files, root: Path, id: string, app: App)
    requires Readable(files, root) && id != KUST
    ensures ChainReadable(Prepared(files, root + [id], app), root + [id] + [RESOURCES])
  {
    var dir, sub, ready := root + [id], root + [id] + [RESOURCES], Prepared(files, root + [id], app);
    forall i | 0 <= i < |sub| ensures !Broken(ready, sub[..i]) {
      var k := sub[..i] + [KUST];
      if i <= |root| {
        AboveInstance(root, id, i);
        PreparedAt(files, dir, app, k);
        assert !Broken(files, root[..i]);
      } else {
        assert sub[..i] == dir;
        PreparedNoKust(files, dir, app);
      }
    }
  }

  lemma PreparedNoKust(files: Files, dir: Path, app: App)
    ensures dir + [KUST] !in Prepared(files, dir, app)
  {
    var items := app.data[..Allowed(app.data)];
    Reserved();
    LastDiffers(dir, KUST, dir, YAML);
    LastDiffers(dir, KUST, dir, CONFIG);
    forall i | 0 <= i < |items| ensures dir + [KUST] != dir + [items[i].0] {
      LastDiffers(dir, KUST, dir, items[i].0);
    }
    WriteFrame(Cleared(files, dir)[dir + [YAML] := Instance(app.cfg)][dir + [CONFIG] := Instance(app.cfg)],
               dir, items, dir + [KUST]);
  }
}
