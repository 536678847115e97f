/** The application manager: it walks and rewrites the file tree of the repository. */
module AppManagement {
  import opened Repo
  import opened Wrappers

  class AppManager {
    const root: Path
    var files: Files

    constructor (root: Path, files: Files)
      ensures this.root == root && this.files == files
    {
      this.root, this.files := root, files;
    }

    /** Visits every directory from the given path up to the root, once each; a broken kustomization stops it. */
    method CreateKustomizationChain(path: Path) returns (ok: bool, steps: nat)
      modifies this
      ensures files == Chained(old(files), path)
      ensures ok <==> ChainReadable(old(files), path)
      ensures ok ==> steps == |path|
    {
      hide ChainReadable;
      ghost var start := files;
      var p := path;
      steps := 0;
      while p != []
        invariant steps + |p| == |path| && Chained(files, p) == Chained(start, path)
        invariant ChainReadable(files, p) <==> ChainReadable(start, path)
        decreases |p|
      {
        var parent, child := p[..|p| - 1], p[|p| - 1];
        var kustPath := parent + [KUST];
        ReadableUp(files, p);
        var kust := new Kustomization([]);
        if kustPath in files {
          if !files[kustPath].Kust? {
            assert Chained(files, p) == files;
            return false, steps;
          }
          kust := new Kustomization(files[kustPath].resources);
        }
        AddOne(kust.resources, child);
        kust.AddResources([child]);
        files := files[kustPath := Kust(kust.resources)];
        p := parent;
        steps := steps + 1;
      }
      RootReadable(files);
      ok := true;
    }

    method RemoveDir(dir: Path)
      modifies this
      ensures files == Cleared(old(files), dir)
    {
      files := map p | p in files && !Under(dir, p) :: files[p];
    }

    /** Writes the data files in order and stops at the first forbidden name. */
    method WriteData(dir: Path, data: seq<(string, string)>) returns (ok: bool)
      modifies this
      ensures files == Write(old(files), dir, data[..Allowed(data)]) && ok == (Allowed(data) == |data|)
    {
      for i := 0 to |data|
        invariant i <= Allowed(data) && files == Write(old(files), dir, data[..i])
      {
        var (name, contents) := data[i];
        assert data[..i + 1][..i] == data[..i] && data[..i + 1][i] == data[i];
        if Forbidden(name) { return false; }
        files := files[dir + [name] := Blob(contents)];
      }
      ok := true;
    }

    /** Writes the resource files and their own kustomization. */
    method WriteResources(sub: Path, resources: seq<(string, string)>)
      modifies this
      ensures files == Write(old(files), sub, resources)[sub + [KUST] := Kust(AddAll([], NamesOf(resources)))]
    {
      hide Write, AddAll, AddResource, NamesOf;
      var kust := new Kustomization([]);
      WriteNone(files, sub);
      assert resources[..0] == [];
      for i := 0 to |resources|
        invariant kust.resources == AddAll([], NamesOf(resources[..i]))
        invariant files == Write(old(files), sub, resources[..i])
      {
        var (name, contents) := resources[i];
        WriteSnoc(old(files), sub, resources, i);
        AddOne(kust.resources, name);
        AddAllSnoc(NamesOf(resources[..i]), name);
        kust.AddResources([name]);
        files := files[sub + [name] := Blob(contents)];
      }
      assert resources[..|resources|] == resources;
      files := files[sub + [KUST] := Kust(kust.resources)];
    }

    method InstallApp(id: string, app: App) returns (ok: bool)
      modifies this
      ensures ok == InstallOk(old(files), root + [id], app) && files == Installed(old(files), root + [id], app)
    {
      hide Write, AddAll, Cleared, Chained, Allowed, ChainReadable;
      var dir := root + [id];
      ghost var start := files;
      RemoveDir(dir);
      files := files[dir + [YAML] := Instance(app.cfg)][dir + [CONFIG] := Instance(app.cfg)];
      ok := WriteData(dir, app.data);
      if !ok { return; }
      assert files == Prepared(start, dir, app);
      var sub, steps := dir + [RESOURCES], 0;
      ok, steps := CreateKustomizationChain(sub);
      if !ok { return; }
      WriteResources(sub, app.resources);
    }

    /** Reads the configuration of the environment. */
    method HasConfig() returns (ok: bool)
      ensures ok == HasEnv(files)
    {
      ok := [YAML] in files && files[[YAML]].Env?;
    }

    method Install(id: string, app: App) returns (ok: bool)
      modifies this
      ensures ok == Succeeds(old(files), root, Call.Install(id, app))
      ensures files == After(old(files), root, Call.Install(id, app))
    {
      hide InstallOk, Installed;
      ok := HasConfig();
      if ok { ok := InstallApp(id, app); }
    }

    method Update(id: string, app: App) returns (ok: bool)
      modifies this
      ensures ok == Succeeds(old(files), root, Call.Update(id, app))
      ensures files == After(old(files), root, Call.Update(id, app))
    {
      hide InstallOk, Installed;
      ok := HasConfig();
      if !ok { return; }
      var p := root + [id] + [CONFIG];
      if p !in files || !files[p].Instance? { return false; }
      ok := InstallApp(id, app);
    }

    method Remove(id: string) returns (ok: bool)
      modifies this
      ensures files == After(old(files), root, Call.Remove(id))
      ensures id != KUST ==> ok == Succeeds(old(files), root, Call.Remove(id))
    {
      RemoveDir(root + [id]);
      var k := root + [KUST];
      assert id != KUST ==> !Under(root + [id], k) by {
        if id != KUST { LastDiffers(root, id, root, KUST); }
      }
      if k !in files || !files[k].Kust? { return false; }
      var kust := new Kustomization(files[k].resources);
      kust.RemoveOne(id);
      files := files[k := Kust(kust.resources)];
      ok := true;
    }

    /** Reads the configuration of every listed instance, in order. */
    method FindAllInstances() returns (r: Option<seq<(string, Config)>>)
      ensures r.Some? <==> Findable(files, root)
      ensures r.Some? ==> |r.value| == |ResourcesAt(files, root)|
      ensures r.Some? ==> forall i | 0 <= i < |r.value| ::
        r.value[i].0 == ResourcesAt(files, root)[i] && ConfigAt(files, root + [r.value[i].0]) == Some(r.value[i].1)
    {
      var k := root + [KUST];
      if k !in files || !files[k].Kust? { return None; }
      var listed := files[k].resources;
      var ret: seq<(string, Config)> := [];
      for i := 0 to |listed|
        invariant |ret| == i
        invariant forall j | 0 <= j < i ::
          ret[j].0 == listed[j] && ConfigAt(files, root + [listed[j]]) == Some(ret[j].1)
      {
        var p := root + [listed[i]] + [CONFIG];
        assert listed[i] == ResourcesAt(files, root)[i];
        if p !in files || !files[p].Instance? { return None; }
        ret := ret + [(listed[i], files[p].cfg)];
      }
      r := Some(ret);
    }
  }
}
