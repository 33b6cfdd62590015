/** The plugin registry: plugin objects in listing order, loaded and unloaded in place. */
module PluginRegistry {
  import opened PluginLoading
  import opened Wrappers

  class PluginInfo {
    const id: Id
    const manifest: Manifest
    var enabled: bool
    var loaded: bool
    var error: Option<string>

    constructor (id: Id, manifest: Manifest)
      ensures this.id == id && this.manifest == manifest && !loaded && !enabled && error == None
    {
      this.id, this.manifest := id, manifest;
      enabled, loaded, error := false, false, None;
    }
  }

  class PluginRegistry {
    const plugins: seq<PluginInfo>

    /** Distinct ids, hence distinct objects. */
    ghost predicate Valid() {
      forall i, j :: 0 <= i < j < |plugins| ==> plugins[i].id != plugins[j].id
    }

    /** `w` lists the same ids and manifests in the same order. */
    ghost predicate Represents(w: World) {
      && w.Valid() && |w.order| == |plugins|
      && forall i :: 0 <= i < |plugins| ==> w.order[i] == plugins[i].id && w.manifests[w.order[i]] == plugins[i].manifest
    }

    ghost predicate LoadedIs(w: World, loaded: set<Id>)
      requires |w.order| == |plugins|
      reads plugins
    {
      && (forall i :: 0 <= i < |plugins| ==> (plugins[i].loaded <==> w.order[i] in loaded))
      && forall id <- loaded :: id in w.order
    }

    constructor (plugins: seq<PluginInfo>)
      requires forall i, j :: 0 <= i < j < |plugins| ==> plugins[i].id != plugins[j].id
      ensures this.plugins == plugins && Valid()
    {
      this.plugins := plugins;
    }

    /** Dictionary lookup: the position of the id, or the number of plugins when there is none. */
    method Get(id: Id) returns (i: nat)
      ensures i <= |plugins|
      ensures i < |plugins| ==> plugins[i].id == id
      ensures i == |plugins| ==> forall j :: 0 <= j < |plugins| ==> plugins[j].id != id
    {
      i := 0;
      while i < |plugins| && plugins[i].id != id
        invariant i <= |plugins|
        invariant forall j :: 0 <= j < i ==> plugins[j].id != id
      {
        i := i + 1;
      }
    }

    method LoadedIds(ghost w: World, ghost loaded: set<Id>) returns (ids: set<Id>)
      requires Represents(w) && LoadedIs(w, loaded)
      ensures ids == loaded
    {
      ids := set i | 0 <= i < |plugins| && plugins[i].loaded :: plugins[i].id;
      forall q <- loaded
        ensures q in ids
      {
        var i :| 0 <= i < |plugins| && w.order[i] == q;
        assert plugins[i].id == q && plugins[i].loaded;
      }
    }

    method LoadPlugin(id: Id, ghost w: World, ghost loaded: set<Id>) returns (ok: bool)
      requires Valid() && Represents(w) && LoadedIs(w, loaded)
      modifies plugins
      ensures ok <==> id in w.order && (id in loaded || LoadError(w.manifests[id], loaded).None?)
      ensures id in w.order && id !in loaded && Admitted(w.manifests[id], loaded) ==>
                && (ok <==> w.manifests[id].importError == None)
                && forall i :: 0 <= i < |plugins| && w.order[i] == id ==>
                     plugins[i].loaded == ok && plugins[i].error == w.manifests[id].importError
      ensures id in w.order && id !in loaded && !Admitted(w.manifests[id], loaded) ==> !ok
      ensures LoadedIs(w, if ok then loaded + {id} else loaded)
      ensures forall i :: 0 <= i < |plugins| ==>
                && plugins[i].error == (if w.order[i] == id && id !in loaded then LoadError(w.manifests[id], loaded)
                                        else old(plugins[i].error))
                && plugins[i].enabled == (old(plugins[i].enabled) || (w.order[i] == id && id !in loaded && ok))
    {
      var k := Get(id);
      if k == |plugins| {
        return false;
      }
      var info := plugins[k];
      assert forall i :: 0 <= i < |plugins| && i != k ==> plugins[i] != info;
      if info.loaded {
        return true;
      }
      var loadedIds := LoadedIds(w, loaded);
      LoadByManifest(info.manifest, loaded);
      hide LoadError, Admitted;
      var failure := LoadError(info.manifest, loadedIds);
      if failure.Some? {
        info.error := failure;
        return false;
      }
      info.loaded := true;
      info.enabled := true;
      info.error := None;
      return true;
    }

    method UnloadPlugin(info: PluginInfo)
      modifies info
      ensures !info.loaded && info.enabled == (old(info.enabled) && !old(info.loaded)) && info.error == old(info.error)
    {
      if info.loaded {
        info.loaded := false;
        info.enabled := false;
      }
    }

    /** First loop of the call: unload every plugin with a `.disabled` marker. */
    method UnloadDisabled(enabledIds: set<Id>, ghost w: World, ghost loaded: set<Id>)
      requires Valid() && Represents(w) && LoadedIs(w, loaded)
      modifies plugins
      ensures LoadedIs(w, loaded * enabledIds)
      ensures forall i :: 0 <= i < |plugins| ==>
                && plugins[i].error == old(plugins[i].error)
                && plugins[i].enabled == (old(plugins[i].enabled) && w.order[i] !in loaded - enabledIds)
    {
      for k := 0 to |plugins|
        invariant forall i :: 0 <= i < |plugins| ==>
                    (plugins[i].loaded <==> w.order[i] in loaded && (i < k ==> w.order[i] in enabledIds))
        invariant forall i :: 0 <= i < |plugins| ==>
                    && plugins[i].error == old(plugins[i].error)
                    && plugins[i].enabled
                       == (old(plugins[i].enabled) && (i < k ==> w.order[i] !in loaded - enabledIds))
      {
        var info := plugins[k];
        assert forall i :: 0 <= i < |plugins| && i != k ==> plugins[i] != info;
        if info.id !in enabledIds && info.loaded {
          UnloadPlugin(info);
        }
      }
    }

    /** One plugin's turn in a pass; `retry` says that it failed for a retryable reason. */
    method TakeTurn(k: nat, enabledIds: set<Id>, ghost w: World, ghost loaded: set<Id>) returns (retry: bool)
      requires k < |plugins|
      requires Valid() && Represents(w) && w.enabled == enabledIds && LoadedIs(w, PassTo(w, loaded, k))
      modifies plugins
      ensures LoadedIs(w, PassTo(w, loaded, k + 1))
      ensures retry <==> FailsRetryably(w, loaded, k)
      ensures plugins[k].error == ErrorAfterPass(w, loaded, k, old(plugins[k].error))
      ensures plugins[k].enabled == (old(plugins[k].enabled) || w.order[k] in PassTo(w, loaded, k + 1) - PassTo(w, loaded, k))
      ensures forall i :: 0 <= i < |plugins| && i != k ==>
                && plugins[i].error == old(plugins[i].error) && plugins[i].loaded == old(plugins[i].loaded)
                && plugins[i].enabled == old(plugins[i].enabled)
    {
      var info := plugins[k];
      assert w.order[k] == info.id;
      assert forall i :: 0 <= i < |plugins| && i != k ==> w.order[i] != info.id;
      assert forall i :: 0 <= i < |plugins| && i != k ==> plugins[i] != info;
      retry := false;
      if info.id in enabledIds && !info.loaded {
        var ok := LoadPlugin(info.id, w, PassTo(w, loaded, k));
        if !ok && info.error.Some? && Retryable(info.error.value) {
          retry := true;
          info.error := None;
        }
      }
    }

    /** One pass over the listing; `pending` says that some plugin failed for a retryable reason. */
    method LoadPass(enabledIds: set<Id>, ghost w: World, ghost loaded: set<Id>) returns (pending: bool)
      requires Valid() && Represents(w) && w.enabled == enabledIds && LoadedIs(w, loaded)
      modifies plugins
      ensures LoadedIs(w, Pass(w, loaded))
      ensures pending <==> PendingAfter(w, loaded, |w.order|)
      ensures forall i :: 0 <= i < |plugins| ==>
                && plugins[i].error == ErrorAfterPass(w, loaded, i, old(plugins[i].error))
                && plugins[i].enabled == (old(plugins[i].enabled) || w.order[i] in Pass(w, loaded) - loaded)
    {
      hide ErrorAfterPass, Loads, LoadError, FailsRetryably;
      pending := false;
      for k := 0 to |plugins|
        invariant LoadedIs(w, PassTo(w, loaded, k))
        invariant pending <==> PendingAfter(w, loaded, k)
        invariant forall i :: 0 <= i < |plugins| ==>
                    && plugins[i].error == (if i < k then ErrorAfterPass(w, loaded, i, old(plugins[i].error))
                                            else old(plugins[i].error))
                    && plugins[i].enabled == (old(plugins[i].enabled) || w.order[i] in PassTo(w, loaded, k) - loaded)
      {
        PendingGrows(w, loaded, k);
        PassGrows(w, loaded, 0, k);
        var retry := TakeTurn(k, enabledIds, w, loaded);
        pending := pending || retry;
      }
    }

    method LoadEnabled(enabledIds: set<Id>, ghost w: World, ghost loaded: set<Id>)
      requires Valid() && Represents(w) && w.enabled == enabledIds && LoadedIs(w, loaded)
      modifies plugins
      ensures LoadedIs(w, PluginLoading.LoadEnabled(w, loaded))
      ensures forall i :: 0 <= i < |plugins| ==>
                plugins[i].error == ErrorAfterCall(w, loaded, i, old(plugins[i].error))
      ensures var l := PluginLoading.LoadEnabled(w, loaded);
              forall i :: 0 <= i < |plugins| ==>
                plugins[i].enabled == ((old(plugins[i].enabled) && w.order[i] !in loaded - enabledIds)
                                       || w.order[i] in l - loaded * enabledIds)
    {
      hide ErrorAfterPass, PendingAfter, Pass;
      UnloadDisabled(enabledIds, w, loaded);
      ghost var kept := loaded * enabledIds;
      PassOnlyGrows(w, kept);
      PassOnlyGrows(w, Pass(w, kept));
      var pending := LoadPass(enabledIds, w, kept);
      if pending {
        pending := LoadPass(enabledIds, w, Pass(w, kept));
      } else {
        SettledByOnePass(w, kept);
      }
    }
  }
}
