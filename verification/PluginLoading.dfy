/**
  Which plugins a load call ends up with.  Two passes over the listing, each loading the plugins
  whose dependencies are loaded by then.  Calculation on sets and its laws; PluginRegistry.dfy
  holds the objects.
 */
module PluginLoading {
  import Sets
  import opened Text
  import opened Wrappers

  type Id = string

  /** The parts of a manifest that decide loading, and what importing its modules would raise. */
  datatype Manifest = Manifest(dependencies: seq<Id>, conflicts: seq<Id>, importError: Option<string>)

  /** The listing in dictionary order, and the plugins without a `.disabled` marker. */
  datatype World = World(order: seq<Id>, manifests: map<Id, Manifest>, enabled: set<Id>)
  {
    ghost predicate Valid() {
      && (forall i :: 0 <= i < |order| ==> order[i] in manifests)
      && (forall i, j :: 0 <= i < j < |order| ==> order[i] != order[j])
    }

    predicate Eligible(id: Id) {
      id in order && id in enabled && id in manifests
    }
  }

  /** `id` is the first of the list that is not loaded. */
  ghost predicate FirstMissing(deps: seq<Id>, loaded: set<Id>, id: Id) {
    exists i :: 0 <= i < |deps| && deps[i] == id && id !in loaded && forall d <- deps[..i] :: d in loaded
  }

  /** `id` is the first of the list that is loaded. */
  ghost predicate FirstClash(conflicts: seq<Id>, loaded: set<Id>, id: Id) {
    exists i :: 0 <= i < |conflicts| && conflicts[i] == id && id in loaded && forall c <- conflicts[..i] :: c !in loaded
  }

  function CheckDependencies(deps: seq<Id>, loaded: set<Id>): (missing: Option<Id>)
    ensures missing.None? <==> forall d <- deps :: d in loaded
    ensures missing.Some? ==> FirstMissing(deps, loaded, missing.value)
  {
    if deps == [] then None
    else if deps[0] !in loaded then
      assert deps[..0] == [];
      Some(deps[0])
    else
      var missing := CheckDependencies(deps[1..], loaded);
      assert forall i :: 0 <= i < |deps| - 1 ==> deps[..i + 1] == [deps[0]] + deps[1..][..i] && deps[1..][i] == deps[i + 1];
      missing
  }

  function CheckConflicts(conflicts: seq<Id>, loaded: set<Id>): (clash: Option<Id>)
    ensures clash.None? <==> forall c <- conflicts :: c !in loaded
    ensures clash.Some? ==> FirstClash(conflicts, loaded, clash.value)
  {
    if conflicts == [] then None
    else if conflicts[0] in loaded then
      assert conflicts[..0] == [];
      Some(conflicts[0])
    else
      var clash := CheckConflicts(conflicts[1..], loaded);
      assert forall i :: 0 <= i < |conflicts| - 1 ==>
               conflicts[..i + 1] == [conflicts[0]] + conflicts[1..][..i] && conflicts[1..][i] == conflicts[i + 1];
      clash
  }

  function MissingText(id: Id): string {
    "Dependency" + (" check failed: missing dependency '" + id + "'")
  }

  function ConflictText(id: Id): string {
    "Conflict: conflicts with loaded plugin '" + id + "'"
  }

  /** The error text of a failed load, or nothing when the plugin loads. */
  function LoadError(m: Manifest, loaded: set<Id>): Option<string> {
    var missing := CheckDependencies(m.dependencies, loaded);
    if missing.Some? then Some(MissingText(missing.value))
    else
      var clash := CheckConflicts(m.conflicts, loaded);
      if clash.Some? then Some(ConflictText(clash.value))
      else m.importError
  }

  predicate Contains(s: string, sub: string) {
    exists i :: 0 <= i <= |s| && Occurs(s, i, sub)
  }

  /** Does this error make the loop plan another pass? */
  predicate Retryable(error: string) {
    error != "" && Contains(error, "Dependency")
  }

  predicate Loads(w: World, id: Id, loaded: set<Id>) {
    w.Eligible(id) && LoadError(w.manifests[id], loaded).None?
  }

  /** The loaded set after the first `k` plugins of the listing had their turn. */
  function PassTo(w: World, loaded: set<Id>, k: nat): set<Id>
    requires k <= |w.order|
  {
    if k == 0 then loaded
    else
      var before := PassTo(w, loaded, k - 1);
      if w.order[k - 1] !in before && Loads(w, w.order[k - 1], before) then before + {w.order[k - 1]} else before
  }

  function Pass(w: World, loaded: set<Id>): set<Id> {
    PassTo(w, loaded, |w.order|)
  }

  /** A call: unload what is disabled, then two passes. */
  function LoadEnabled(w: World, loaded: set<Id>): set<Id> {
    Pass(w, Pass(w, loaded * w.enabled))
  }

  /** A plugin failed for a retryable reason during a pass. */
  ghost predicate PendingAfter(w: World, loaded: set<Id>, k: nat)
    requires w.Valid() && k <= |w.order|
  {
    exists j :: 0 <= j < k && FailsRetryably(w, loaded, j)
  }

  ghost predicate FailsRetryably(w: World, loaded: set<Id>, j: nat)
    requires w.Valid() && j < |w.order|
  {
    var id, l := w.order[j], PassTo(w, loaded, j);
    id in w.enabled && id !in l && var e := LoadError(w.manifests[id], l); e.Some? && Retryable(e.value)
  }

  lemma PendingGrows(w: World, loaded: set<Id>, k: nat)
    requires w.Valid() && k < |w.order|
    ensures PendingAfter(w, loaded, k + 1) <==> PendingAfter(w, loaded, k) || FailsRetryably(w, loaded, k)
  {
  }

  // ---------- one load ----------

  /** All its dependencies are loaded, and none of its conflicts. */
  predicate Admitted(m: Manifest, loaded: set<Id>) {
    (forall d <- m.dependencies :: d in loaded) && forall c <- m.conflicts :: c !in loaded
  }

  /** What a load ends with, told by the manifest alone: an admitted plugin by its import, another by the text of what stops it. */
  lemma LoadByManifest(m: Manifest, loaded: set<Id>)
    ensures Admitted(m, loaded) ==> LoadError(m, loaded) == m.importError
    ensures !Admitted(m, loaded) ==>
              || (exists d :: FirstMissing(m.dependencies, loaded, d) && LoadError(m, loaded) == Some(MissingText(d)))
              || ((forall d <- m.dependencies :: d in loaded)
                  && exists c :: FirstClash(m.conflicts, loaded, c) && LoadError(m, loaded) == Some(ConflictText(c)))
  {
    hide CheckDependencies, CheckConflicts, MissingText, ConflictText, FirstMissing, FirstClash;
    var missing, clash := CheckDependencies(m.dependencies, loaded), CheckConflicts(m.conflicts, loaded);
    if missing.Some? {
      assert FirstMissing(m.dependencies, loaded, missing.value);
    } else if clash.Some? {
      assert FirstClash(m.conflicts, loaded, clash.value);
    }
  }

  lemma LoadsIff(w: World, id: Id, loaded: set<Id>)
    ensures Loads(w, id, loaded) <==>
              && id in w.order && id in w.enabled && id in w.manifests
              && Admitted(w.manifests[id], loaded) && w.manifests[id].importError == None
  {
    if id in w.manifests {
      LoadByManifest(w.manifests[id], loaded);
    }
  }

  // ---------- one pass ----------

  lemma {:induction false} PassGrows(w: World, loaded: set<Id>, j: nat, k: nat)
    requires j <= k <= |w.order|
    ensures PassTo(w, loaded, j) <= PassTo(w, loaded, k)
    decreases k
  {
    if j < k {
      PassGrows(w, loaded, j, k - 1);
    }
  }

  lemma {:induction false} PassOnlyEnabled(w: World, loaded: set<Id>, k: nat)
    requires k <= |w.order| && loaded <= w.enabled
    ensures PassTo(w, loaded, k) <= w.enabled
  {
    if k > 0 {
      PassOnlyEnabled(w, loaded, k - 1);
    }
  }

  lemma {:induction false} PassAddsListed(w: World, loaded: set<Id>, k: nat, id: Id)
    requires k <= |w.order| && id in PassTo(w, loaded, k) && id !in loaded
    ensures exists i :: 0 <= i < k && w.order[i] == id && Loads(w, id, PassTo(w, loaded, i))
  {
    if id in PassTo(w, loaded, k - 1) {
      PassAddsListed(w, loaded, k - 1, id);
    } else {
      assert w.order[k - 1] == id;
    }
  }

  /** A plugin is loaded by a pass exactly on its own turn. */
  lemma TurnDecides(w: World, loaded: set<Id>, i: nat)
    requires w.Valid() && i < |w.order|
    ensures var id := w.order[i];
            id in Pass(w, loaded) <==> id in loaded || Loads(w, id, PassTo(w, loaded, i))
    ensures w.order[i] in PassTo(w, loaded, i) <==> w.order[i] in loaded
  {
    var id := w.order[i];
    PassGrows(w, loaded, 0, i);
    PassGrows(w, loaded, i + 1, |w.order|);
    if id in PassTo(w, loaded, i) && id !in loaded {
      PassAddsListed(w, loaded, i, id);
      assert false;
    }
    if id in Pass(w, loaded) && id !in loaded {
      PassAddsListed(w, loaded, |w.order|, id);
      var j :| 0 <= j < |w.order| && w.order[j] == id && Loads(w, id, PassTo(w, loaded, j));
      assert j == i;
    }
  }

  ghost function Pos(w: World, id: Id): nat
    requires id in w.order
    ensures Pos(w, id) < |w.order| && w.order[Pos(w, id)] == id
  {
    var i :| 0 <= i < |w.order| && w.order[i] == id;
    i
  }

  /** A dependency is loaded by the dependant's turn if it was loaded before the pass or had an earlier turn. */
  lemma TurnInPass(w: World, loaded: set<Id>, p: Id, d: Id)
    requires w.Valid() && p in w.order
    ensures d in PassTo(w, loaded, Pos(w, p)) <==>
              d in loaded || (d in w.order && d in Pass(w, loaded) && Pos(w, d) < Pos(w, p))
  {
    hide LoadError;
    var k := Pos(w, p);
    PassGrows(w, loaded, 0, k);
    PassGrows(w, loaded, k, |w.order|);
    if d in PassTo(w, loaded, k) && d !in loaded {
      PassAddsListed(w, loaded, k, d);
    } else if d !in loaded && d in w.order && d in Pass(w, loaded) && Pos(w, d) < k {
      TurnDecides(w, loaded, Pos(w, d));
      PassGrows(w, loaded, Pos(w, d) + 1, k);
    }
  }

  /** A pass loads a plugin exactly on its turn, if it is enabled, admitted by what is loaded then, and its import succeeds. */
  lemma LoadedByPassIff(w: World, loaded: set<Id>, id: Id)
    requires w.Valid() && id in w.order
    ensures id in Pass(w, loaded) <==>
              || id in loaded
              || (id in w.enabled && Admitted(w.manifests[id], PassTo(w, loaded, Pos(w, id))) && w.manifests[id].importError == None)
  {
    hide LoadError, Admitted, PassTo;
    TurnDecides(w, loaded, Pos(w, id));
    LoadsIff(w, id, PassTo(w, loaded, Pos(w, id)));
  }

  /** A plugin whose import raises is never loaded by a call. */
  lemma {:induction false} ImportErrorNeverLoads(w: World, loaded: set<Id>, id: Id)
    requires w.Valid() && id in w.order && w.manifests[id].importError.Some? && id !in loaded
    ensures id !in LoadEnabled(w, loaded)
  {
    hide PassTo;
    LoadedByPassIff(w, loaded * w.enabled, id);
    LoadedByPassIff(w, Pass(w, loaded * w.enabled), id);
  }

  /** A failed dependency check always counts as retryable. */
  lemma MissingIsRetryable(m: Manifest, loaded: set<Id>)
    requires CheckDependencies(m.dependencies, loaded).Some?
    ensures LoadError(m, loaded).Some? && Retryable(LoadError(m, loaded).value)
  {
    var e := LoadError(m, loaded).value;
    assert e[0..|"Dependency"|] == "Dependency";
    assert Occurs(e, 0, "Dependency");
  }

  /** The text of a conflict mentions "Dependency" only if the other plugin's name does. */
  lemma ConflictMentions(id: Id)
    ensures Retryable(ConflictText(id)) <==> exists i :: Occurs(id, i, "Dependency")
  {
    var before := "Conflict: conflicts with loaded plugin '";
    var e := ConflictText(id);
    assert e == before + id + "'" && |before| == 40;
    forall i
      ensures Occurs(e, i, "Dependency") <==> Occurs(id, i - 40, "Dependency")
    {
      if 0 <= i && i + 10 <= |e| {
        assert e[i..i + 10][0] == e[i] && e[i..i + 10][9] == e[i + 9];
        if 40 <= i && i + 10 <= 40 + |id| {
          assert e[i..i + 10] == id[i - 40..i - 30];
        }
      }
    }
    if j :| Occurs(id, j, "Dependency") {
      assert Occurs(e, j + 40, "Dependency");
    }
  }

  /**
    A failed load asks for another pass for a missing dependency, and not for a conflict or a
    failed import, unless the text of its error happens to mention "Dependency".
   */
  lemma RetryIff(m: Manifest, loaded: set<Id>)
    requires LoadError(m, loaded).Some?
    ensures var retry, missing := Retryable(LoadError(m, loaded).value), !(forall d <- m.dependencies :: d in loaded);
            && (missing ==> retry)
            && (Admitted(m, loaded) ==> (retry <==> exists i :: Occurs(m.importError.value, i, "Dependency")))
            && (!missing && !Admitted(m, loaded) ==>
                  exists c :: FirstClash(m.conflicts, loaded, c) && (retry <==> exists i :: Occurs(c, i, "Dependency")))
  {
    hide CheckDependencies, CheckConflicts, MissingText, ConflictText, FirstMissing, FirstClash, Occurs;
    LoadByManifest(m, loaded);
    if !(forall d <- m.dependencies :: d in loaded) {
      MissingIsRetryable(m, loaded);
    } else if Admitted(m, loaded) {
      RetryableIff(m.importError.value);
    } else {
      var c :| FirstClash(m.conflicts, loaded, c) && LoadError(m, loaded) == Some(ConflictText(c));
      ConflictMentions(c);
    }
  }

  lemma RetryableIff(error: string)
    ensures Retryable(error) <==> exists i :: Occurs(error, i, "Dependency")
  {
  }

  /** A conflict or import failure does not go away in a later, larger set. */
  lemma FailureLasts(m: Manifest, small: set<Id>, large: set<Id>)
    requires small <= large && LoadError(m, small).Some? && !Retryable(LoadError(m, small).value)
    ensures LoadError(m, large).Some?
  {
    if CheckDependencies(m.dependencies, small).Some? {
      MissingIsRetryable(m, small);
    }
  }

  /** With nothing to retry, a second pass would change nothing: stopping early is sound. */
  lemma {:induction false} NoRetryNoChange(w: World, loaded: set<Id>, k: nat)
    requires w.Valid() && k <= |w.order| && !PendingAfter(w, loaded, |w.order|)
    ensures PassTo(w, Pass(w, loaded), k) == Pass(w, loaded)
  {
    if k > 0 {
      NoRetryNoChange(w, loaded, k - 1);
      var all, l, id := Pass(w, loaded), PassTo(w, loaded, k - 1), w.order[k - 1];
      TurnDecides(w, loaded, k - 1);
      PassGrows(w, loaded, k - 1, |w.order|);
      if id !in all && id in w.enabled {
        assert LoadError(w.manifests[id], l).Some?;
        assert !FailsRetryably(w, loaded, k - 1);
        FailureLasts(w.manifests[id], l, all);
      }
    }
  }

  lemma PassOnlyGrows(w: World, loaded: set<Id>)
    ensures loaded <= Pass(w, loaded)
  {
    PassGrows(w, loaded, 0, |w.order|);
  }

  lemma SettledByOnePass(w: World, loaded: set<Id>)
    requires w.Valid() && !PendingAfter(w, loaded, |w.order|)
    ensures Pass(w, Pass(w, loaded)) == Pass(w, loaded)
  {
    NoRetryNoChange(w, loaded, |w.order|);
  }

  // ---------- the errors left behind ----------

  /** The error of the `i`-th plugin after a pass: a failed load leaves its reason, unless that is retryable. */
  function ErrorAfterPass(w: World, loaded: set<Id>, i: nat, before: Option<string>): Option<string>
    requires i < |w.order| && w.order[i] in w.manifests
  {
    var id, l := w.order[i], PassTo(w, loaded, i);
    if id !in w.enabled || id in l then before
    else
      var e := LoadError(w.manifests[id], l);
      if e.Some? && Retryable(e.value) then None else e
  }

  /** The set the last pass of a call starts from: a second pass runs only if the first asked for it. */
  ghost function LastStart(w: World, loaded: set<Id>): set<Id>
    requires w.Valid()
  {
    var kept := loaded * w.enabled;
    if PendingAfter(w, kept, |w.order|) then Pass(w, kept) else kept
  }

  ghost function ErrorAfterCall(w: World, loaded: set<Id>, i: nat, before: Option<string>): Option<string>
    requires w.Valid() && i < |w.order|
  {
    var kept := loaded * w.enabled;
    var first := ErrorAfterPass(w, kept, i, before);
    if PendingAfter(w, kept, |w.order|) then ErrorAfterPass(w, Pass(w, kept), i, first) else first
  }

  lemma LastStartEnds(w: World, loaded: set<Id>)
    requires w.Valid()
    ensures Pass(w, LastStart(w, loaded)) == LoadEnabled(w, loaded)
  {
    var kept := loaded * w.enabled;
    if !PendingAfter(w, kept, |w.order|) {
      NoRetryNoChange(w, kept, |w.order|);
    }
  }

  /** A call clears the error of a plugin it loads, and leaves that of a disabled or already loaded one alone. */
  lemma OtherErrors(w: World, loaded: set<Id>, i: nat, before: Option<string>)
    requires w.Valid() && i < |w.order|
    ensures w.order[i] !in w.enabled || w.order[i] in loaded ==> ErrorAfterCall(w, loaded, i, before) == before
    ensures w.order[i] in LoadEnabled(w, loaded) && w.order[i] !in loaded ==> ErrorAfterCall(w, loaded, i, before) == None
  {
    hide Retryable, LoadError;
    var kept := loaded * w.enabled;
    TurnDecides(w, kept, i);
    TurnDecides(w, Pass(w, kept), i);
    PassGrows(w, kept, 0, |w.order|);
    LastStartEnds(w, loaded);
  }

  /** What an enabled plugin that a call leaves out ends up with: the reason of its last attempt, if that is final. */
  lemma LeftOutError(w: World, loaded: set<Id>, i: nat, before: Option<string>)
    requires w.Valid() && i < |w.order| && w.order[i] in w.enabled && w.order[i] !in LoadEnabled(w, loaded)
    ensures var e := LoadError(w.manifests[w.order[i]], PassTo(w, LastStart(w, loaded), i));
            && e.Some?
            && ErrorAfterCall(w, loaded, i, before) == if Retryable(e.value) then None else e
  {
    hide Retryable, LoadError;
    var start := LastStart(w, loaded);
    LastStartEnds(w, loaded);
    TurnDecides(w, start, i);
    PassGrows(w, start, 0, |w.order|);
  }

  /** A plugin left out for a missing dependency ends without an error, whatever it had before. */
  lemma MissingDependencyLeavesNoError(w: World, loaded: set<Id>, i: nat, before: Option<string>)
    requires w.Valid() && i < |w.order| && w.order[i] in w.enabled
    requires CheckDependencies(w.manifests[w.order[i]].dependencies, LoadEnabled(w, loaded)).Some?
    requires w.order[i] !in LoadEnabled(w, loaded)
    ensures ErrorAfterCall(w, loaded, i, before) == None
  {
    hide Retryable, LoadError;
    LeftOutError(w, loaded, i, before);
    LastStartEnds(w, loaded);
    var m, l := w.manifests[w.order[i]], PassTo(w, LastStart(w, loaded), i);
    PassGrows(w, LastStart(w, loaded), i, |w.order|);
    var missing := CheckDependencies(m.dependencies, LoadEnabled(w, loaded)).value;
    assert missing !in l;
    MissingIsRetryable(m, l);
  }

  // ---------- dependencies stay satisfied, or not ----------

  /** Every loaded plugin's dependencies are loaded. */
  ghost predicate Closed(w: World, loaded: set<Id>) {
    forall p <- loaded :: p in w.manifests && forall d <- w.manifests[p].dependencies :: d in loaded
  }

  lemma {:induction false} PassKeepsClosed(w: World, loaded: set<Id>, k: nat)
    requires k <= |w.order| && Closed(w, loaded)
    ensures Closed(w, PassTo(w, loaded, k))
  {
    if k > 0 {
      PassKeepsClosed(w, loaded, k - 1);
    }
  }

  /**
    Unloading a disabled plugin does not unload its dependants.  A call keeps dependencies
    satisfied exactly when no plugin that stays loaded depends on a disabled one.
   */
  lemma DependenciesKeptIff(w: World, loaded: set<Id>)
    requires w.Valid() && Closed(w, loaded)
    ensures Closed(w, LoadEnabled(w, loaded)) <==>
              forall p <- loaded * w.enabled :: forall d <- w.manifests[p].dependencies :: d in w.enabled
  {
    var kept := loaded * w.enabled;
    var n := |w.order|;
    PassGrows(w, kept, 0, n);
    PassGrows(w, Pass(w, kept), 0, n);
    PassOnlyEnabled(w, kept, n);
    PassOnlyEnabled(w, Pass(w, kept), n);
    if forall p <- kept :: forall d <- w.manifests[p].dependencies :: d in w.enabled {
      assert Closed(w, kept);
      PassKeepsClosed(w, kept, n);
      PassKeepsClosed(w, Pass(w, kept), n);
    } else {
      var p :| p in kept && !(forall d <- w.manifests[p].dependencies :: d in w.enabled);
      assert p in LoadEnabled(w, loaded);
    }
  }

  /** A concrete call that leaves a dependant loaded without its dependency. */
  lemma DependencyCanBeLost()
    ensures exists w: World, loaded: set<Id> ::
              w.Valid() && Closed(w, loaded) && !Closed(w, LoadEnabled(w, loaded))
  {
    var a, b := Manifest([], [], None), Manifest(["a"], [], None);
    var w := World(["a", "b"], map["a" := a, "b" := b], {"b"});
    assert "a" != "b";
    assert w.Valid() && Closed(w, {"a", "b"});
    DependenciesKeptIff(w, {"a", "b"});
    assert "b" in {"a", "b"} * w.enabled && "a" in w.manifests["b"].dependencies;
  }

  // ---------- conflicts ----------

  predicate Declares(w: World, p: Id, q: Id) {
    p in w.manifests && q in w.manifests[p].conflicts
  }

  /** No loaded plugin declares a conflict with a loaded one. */
  ghost predicate Coexist(w: World, loaded: set<Id>) {
    forall p <- loaded, q <- loaded :: !Declares(w, p, q)
  }

  /** The check looks only at the candidate's own list: the set stays free of conflicts iff nobody loaded objects. */
  lemma LoadKeepsCoexistenceIff(w: World, id: Id, loaded: set<Id>)
    requires Coexist(w, loaded) && Loads(w, id, loaded)
    ensures Coexist(w, loaded + {id}) <==> !Declares(w, id, id) && forall p <- loaded :: !Declares(w, p, id)
  {
    assert id in loaded + {id};
  }

  /** With conflicts declared on both sides, conflicting plugins never coexist, over every call. */
  lemma {:induction false} SymmetricConflictsExclude(w: World, loaded: set<Id>, k: nat)
    requires k <= |w.order| && Coexist(w, loaded)
    requires forall p, q :: Declares(w, p, q) ==> Declares(w, q, p) && p != q
    ensures Coexist(w, PassTo(w, loaded, k))
  {
    if k > 0 {
      SymmetricConflictsExclude(w, loaded, k - 1);
      var before, id := PassTo(w, loaded, k - 1), w.order[k - 1];
      if Loads(w, id, before) {
        LoadKeepsCoexistenceIff(w, id, before);
      }
    }
  }

  /**
    `p` declares a conflict with `q` and `q` declares none; nothing else keeps either from loading:
    no dependencies, no import errors, and no declared conflict with another enabled plugin.
   */
  ghost predicate OneSided(w: World, p: Id, q: Id) {
    && w.Valid() && p != q && w.Eligible(p) && w.Eligible(q)
    && w.manifests[p].dependencies == [] == w.manifests[q].dependencies
    && w.manifests[p].importError == None == w.manifests[q].importError
    && q in w.manifests[p].conflicts
    && (forall c <- w.manifests[p].conflicts :: c == q || !w.Eligible(c))
    && (forall c <- w.manifests[q].conflicts :: !w.Eligible(c))
  }

  lemma {:induction false} PassOnlyEligible(w: World, loaded: set<Id>, k: nat, id: Id)
    requires k <= |w.order| && id in PassTo(w, loaded, k) && id !in loaded
    ensures w.Eligible(id)
  {
    PassAddsListed(w, loaded, k, id);
  }

  /** Whenever only eligible plugins are loaded, `q` loads on its turn, and `p` does exactly before `q`. */
  lemma OneSidedLoads(w: World, p: Id, q: Id, loaded: set<Id>)
    requires OneSided(w, p, q) && forall id <- loaded :: w.Eligible(id)
    ensures Loads(w, q, loaded) && (Loads(w, p, loaded) <==> q !in loaded)
  {
    var clash := CheckConflicts(w.manifests[q].conflicts, loaded);
    assert clash.None?;
    assert CheckDependencies([], loaded).None?;
  }

  /** A pass loads `q`; it leaves `p` and `q` both loaded exactly if `p` was, or is listed before `q` with `q` not loaded. */
  lemma OneSidedPass(w: World, p: Id, q: Id, loaded: set<Id>)
    requires OneSided(w, p, q) && forall id <- loaded :: w.Eligible(id)
    ensures var l := Pass(w, loaded);
            && (forall id <- l :: w.Eligible(id))
            && q in l
            && (p in l <==> p in loaded || (q !in loaded && Pos(w, p) < Pos(w, q)))
  {
    var i, j := Pos(w, p), Pos(w, q);
    forall k, id | 0 <= k <= |w.order| && id in PassTo(w, loaded, k)
      ensures w.Eligible(id)
    {
      if id !in loaded {
        PassOnlyEligible(w, loaded, k, id);
      }
    }
    TurnDecides(w, loaded, i);
    TurnDecides(w, loaded, j);
    OneSidedLoads(w, p, q, PassTo(w, loaded, j));
    OneSidedLoads(w, p, q, PassTo(w, loaded, i));
    TurnInPass(w, loaded, p, q);
    assert i != j;
  }

  /** A one-sided conflict is missed exactly when the plugin that declares it is listed first. */
  lemma OneSidedConflictMissedIff(w: World, p: Id, q: Id)
    requires OneSided(w, p, q)
    ensures q in LoadEnabled(w, {}) && (p in LoadEnabled(w, {}) <==> Pos(w, p) < Pos(w, q))
    ensures Pos(w, p) < Pos(w, q) ==> !Coexist(w, LoadEnabled(w, {}))
  {
    assert {} * w.enabled == {};
    OneSidedPass(w, p, q, {});
    OneSidedPass(w, p, q, Pass(w, {}));
    if Pos(w, p) < Pos(w, q) {
      assert Declares(w, p, q);
    }
  }

  // ---------- which plugins get loaded ----------

  /** No plugin declares a conflict and every import succeeds. */
  ghost predicate Plain(w: World) {
    w.Valid() && forall id <- w.manifests :: w.manifests[id].conflicts == [] && w.manifests[id].importError == None
  }

  lemma PlainLoads(w: World, id: Id, loaded: set<Id>)
    requires Plain(w)
    ensures Loads(w, id, loaded) <==>
              w.Eligible(id) && forall d <- w.manifests[id].dependencies :: d in loaded
  {
  }

  /** The loaded set after `r` passes from nothing. */
  function Rounds(w: World, r: nat): set<Id> {
    if r == 0 then {} else Pass(w, Rounds(w, r - 1))
  }

  lemma CallIsTwoRounds(w: World)
    ensures LoadEnabled(w, {}) == Rounds(w, 2)
  {
    assert {} * w.enabled == {};
    assert Rounds(w, 1) == Pass(w, Rounds(w, 0));
  }

  /** A dependency path: each plugin lists the next one as a dependency. */
  ghost predicate Walk(w: World, path: seq<Id>) {
    path != [] &&
    forall i :: 0 <= i < |path| - 1 ==>
      path[i] in w.manifests && path[i + 1] in w.manifests[path[i]].dependencies
  }

  /** Every plugin on the path is listed and enabled. */
  ghost predicate AllEligible(w: World, path: seq<Id>) {
    forall i :: 0 <= i < |path| ==> w.Eligible(path[i])
  }

  /** Is the second plugin listed no earlier than the first? */
  ghost predicate LateStep(w: World, p: Id, d: Id)
    requires p in w.order && d in w.order
  {
    Pos(w, d) >= Pos(w, p)
  }

  ghost function LateSteps(w: World, path: seq<Id>): nat
    requires path != [] && AllEligible(w, path)
  {
    if |path| == 1 then 0
    else (if LateStep(w, path[0], path[1]) then 1 else 0) + LateSteps(w, path[1..])
  }

  /** All dependency paths from `p` stay inside the eligible plugins and step late at most `late` times. */
  ghost predicate Resolvable(w: World, p: Id, late: nat) {
    forall path: seq<Id> :: Walk(w, path) && path[0] == p ==> AllEligible(w, path) && LateSteps(w, path) <= late
  }

  lemma RoundsGrow(w: World, r: nat)
    ensures Rounds(w, r) <= Rounds(w, r + 1)
  {
    PassGrows(w, Rounds(w, r), 0, |w.order|);
  }

  /** Membership after one more round, in terms of the dependencies. */
  lemma RoundMember(w: World, r: nat, p: Id)
    requires Plain(w) && p in w.order
    ensures p in Rounds(w, r + 1) <==>
              p in Rounds(w, r) ||
              (w.Eligible(p) && forall d <- w.manifests[p].dependencies ::
                 d in Rounds(w, r) || (d in w.order && d in Rounds(w, r + 1) && Pos(w, d) < Pos(w, p)))
  {
    var l := Rounds(w, r);
    TurnDecides(w, l, Pos(w, p));
    PlainLoads(w, p, PassTo(w, l, Pos(w, p)));
    if p in w.manifests {
      forall d <- w.manifests[p].dependencies
        ensures d in PassTo(w, l, Pos(w, p)) <==>
                  d in l || (d in w.order && d in Rounds(w, r + 1) && Pos(w, d) < Pos(w, p))
      {
        TurnInPass(w, l, p, d);
      }
    }
  }

  lemma {:induction false} RoundsEligible(w: World, r: nat, p: Id)
    requires Plain(w) && p in Rounds(w, r)
    ensures w.Eligible(p)
  {
    if p in Rounds(w, r - 1) {
      RoundsEligible(w, r - 1, p);
    } else {
      PassAddsListed(w, Rounds(w, r - 1), |w.order|, p);
    }
  }

  lemma {:induction false} LoadedMeansResolvable(w: World, r: nat, path: seq<Id>)
    requires Plain(w) && r >= 1 && Walk(w, path) && path[0] in Rounds(w, r)
    ensures AllEligible(w, path) && LateSteps(w, path) <= r - 1
    decreases r, |path|
  {
    var p := path[0];
    RoundsEligible(w, r, p);
    if |path| > 1 {
      var d, tail := path[1], path[1..];
      assert Walk(w, tail);
      RoundMember(w, r - 1, p);
      assert d in w.manifests[p].dependencies;
      if r > 1 && p in Rounds(w, r - 1) {
        LoadedMeansResolvable(w, r - 1, path);
      } else if d in Rounds(w, r - 1) {
        if r > 1 {
          LoadedMeansResolvable(w, r - 1, tail);
        }
      } else {
        LoadedMeansResolvable(w, r, tail);
      }
      assert AllEligible(w, path);
    }
  }

  /** A plugin left out has a dependency path to show for it. */
  lemma {:induction false} LeftOutHasWitness(w: World, r: nat, p: Id) returns (path: seq<Id>)
    requires Plain(w) && r >= 1 && p !in Rounds(w, r)
    ensures Walk(w, path) && path[0] == p
    ensures AllEligible(w, path) ==> LateSteps(w, path) > r - 1
    decreases r, if p in w.order then Pos(w, p) else 0
  {
    path := [p];
    if w.Eligible(p) {
      RoundMember(w, r - 1, p);
      var d :| d in w.manifests[p].dependencies && d !in Rounds(w, r - 1)
               && !(d in w.order && d in Rounds(w, r) && Pos(w, d) < Pos(w, p));
      if !w.Eligible(d) {
        path := [p, d];
        assert !w.Eligible(path[1]);
      } else {
        var tail;
        if Pos(w, d) < Pos(w, p) {
          tail := LeftOutHasWitness(w, r, d);
        } else if r > 1 {
          tail := LeftOutHasWitness(w, r - 1, d);
        } else {
          tail := [d];
        }
        path := [p] + tail;
        assert path[1..] == tail;
        assert AllEligible(w, path) ==> AllEligible(w, tail) by {
          if AllEligible(w, path) {
            forall i | 0 <= i < |tail| ensures w.Eligible(tail[i]) { assert path[i + 1] == tail[i]; }
          }
        }
      }
    }
  }

  /** What `r` passes from nothing load: exactly the plugins resolvable with fewer than `r` late steps. */
  lemma RoundsExact(w: World, r: nat, p: Id)
    requires Plain(w) && r >= 1
    ensures p in Rounds(w, r) <==> Resolvable(w, p, r - 1)
  {
    if p in Rounds(w, r) {
      forall path: seq<Id> | Walk(w, path) && path[0] == p
        ensures AllEligible(w, path) && LateSteps(w, path) <= r - 1
      {
        LoadedMeansResolvable(w, r, path);
      }
    } else {
      var path := LeftOutHasWitness(w, r, p);
    }
  }

  /**
    One call from nothing loads exactly the plugins none of whose dependency paths meets a missing
    or disabled plugin or steps more than once to a plugin listed no earlier.  A cycle contains
    such a step and can be walked twice, so this also rules out cycles.
   */
  lemma FirstCallExact(w: World, p: Id)
    requires Plain(w)
    ensures p in LoadEnabled(w, {}) <==> Resolvable(w, p, 1)
  {
    CallIsTwoRounds(w);
    RoundsExact(w, 2, p);
  }

  // ---------- in which order ----------

  /** The plugins the first `k` turns of a pass load, in the order they do. */
  function PassLog(w: World, loaded: set<Id>, k: nat): seq<Id>
    requires k <= |w.order|
  {
    if k == 0 then []
    else
      var before, id := PassTo(w, loaded, k - 1), w.order[k - 1];
      PassLog(w, loaded, k - 1) + if id !in before && Loads(w, id, before) then [id] else []
  }

  /** The plugins a call from nothing loads, in order. */
  function CallLog(w: World): seq<Id> {
    PassLog(w, {}, |w.order|) + PassLog(w, Pass(w, {}), |w.order|)
  }

  predicate IsFree(w: World, id: Id) {
    id in w.manifests && w.manifests[id].dependencies == []
  }

  /** Every plugin without dependencies that gets loaded is loaded before every one with dependencies. */
  ghost predicate FreeLoadFirst(w: World) {
    var log := CallLog(w);
    forall i, j :: 0 <= i < |log| && 0 <= j < |log| && IsFree(w, log[i]) && !IsFree(w, log[j]) ==> i < j
  }

  /** What a pass loads: each plugin once, in listing order, and exactly the growth of the loaded set. */
  lemma {:induction false} LogInOrder(w: World, loaded: set<Id>, k: nat)
    requires w.Valid() && k <= |w.order|
    ensures var log := PassLog(w, loaded, k);
            && (forall id :: id in log <==> id in PassTo(w, loaded, k) && id !in loaded)
            && (forall i :: 0 <= i < |log| ==> log[i] in w.order && Pos(w, log[i]) < k)
            && (forall i, j :: 0 <= i < j < |log| ==> Pos(w, log[i]) < Pos(w, log[j]))
  {
    hide Loads;
    if k > 0 {
      LogInOrder(w, loaded, k - 1);
      PassGrows(w, loaded, 0, k - 1);
      assert Pos(w, w.order[k - 1]) == k - 1;
    }
  }

  /** A plugin is loaded in the first pass exactly if it is resolvable without a late step; the free ones all are. */
  lemma FirstPassLoads(w: World, p: Id)
    requires Plain(w)
    ensures p in Pass(w, {}) <==> Resolvable(w, p, 0)
    ensures w.Eligible(p) && IsFree(w, p) ==> p in Pass(w, {})
  {
    assert Rounds(w, 1) == Pass(w, Rounds(w, 0)) == Pass(w, {});
    RoundsExact(w, 1, p);
    if w.Eligible(p) && IsFree(w, p) {
      RoundMember(w, 0, p);
    }
  }

  /** Every plugin without dependencies is listed before every plugin with dependencies that the first pass resolves. */
  ghost predicate FreeListedFirst(w: World) {
    forall q, p :: w.Eligible(q) && IsFree(w, q) && w.Eligible(p) && !IsFree(w, p) && Resolvable(w, p, 0) ==>
      Pos(w, q) < Pos(w, p)
  }

  /** The first pass loads what is resolvable without a late step, the second only plugins with dependencies. */
  lemma LogKinds(w: World, id: Id)
    requires Plain(w)
    ensures var n := |w.order|;
            && (id in PassLog(w, {}, n) ==> w.Eligible(id) && Resolvable(w, id, 0))
            && (id in PassLog(w, Pass(w, {}), n) ==> !IsFree(w, id))
  {
    hide Resolvable, LateSteps, Loads;
    var n, l := |w.order|, Pass(w, {});
    LogInOrder(w, {}, n);
    LogInOrder(w, l, n);
    FirstPassLoads(w, id);
    if id in PassTo(w, {}, n) {
      PassOnlyEligible(w, {}, n, id);
    } else if id in PassTo(w, l, n) {
      PassOnlyEligible(w, l, n, id);
    }
  }

  lemma ListedFirstLoadsFirst(w: World)
    requires Plain(w) && FreeListedFirst(w)
    ensures FreeLoadFirst(w)
  {
    hide Resolvable, PassLog, IsFree;
    var n, l := |w.order|, Pass(w, {});
    var first, second := PassLog(w, {}, n), PassLog(w, l, n);
    var log := CallLog(w);
    LogInOrder(w, {}, n);
    forall i, j | 0 <= i < |log| && 0 <= j < |log| && IsFree(w, log[i]) && !IsFree(w, log[j])
      ensures i < j
    {
      LogKinds(w, log[i]);
      LogKinds(w, log[j]);
      InConcat(first, second, i);
      InConcat(first, second, j);
    }
  }

  lemma InConcat(a: seq<Id>, b: seq<Id>, i: nat)
    requires i < |a + b|
    ensures i < |a| ==> (a + b)[i] == a[i] && a[i] in a
    ensures i >= |a| ==> (a + b)[i] == b[i - |a|] && b[i - |a|] in b
  {
  }

  lemma LoadsFirstListedFirst(w: World)
    requires Plain(w) && FreeLoadFirst(w)
    ensures FreeListedFirst(w)
  {
    hide Resolvable, LateSteps;
    var n := |w.order|;
    var first, log := PassLog(w, {}, n), CallLog(w);
    LogInOrder(w, {}, n);
    forall q, p | w.Eligible(q) && IsFree(w, q) && w.Eligible(p) && !IsFree(w, p) && Resolvable(w, p, 0)
      ensures Pos(w, q) < Pos(w, p)
    {
      FirstPassLoads(w, q);
      FirstPassLoads(w, p);
      var i :| 0 <= i < |first| && first[i] == q;
      var j :| 0 <= j < |first| && first[j] == p;
      assert log[i] == q && log[j] == p;
    }
  }

  /**
    The docstring's promise that plugins without dependencies load first holds exactly when each
    of them is listed before every plugin with dependencies that the first pass resolves.
   */
  lemma FreeLoadFirstIff(w: World)
    requires Plain(w)
    ensures FreeLoadFirst(w) <==> FreeListedFirst(w)
  {
    hide FreeLoadFirst, FreeListedFirst;
    if FreeListedFirst(w) {
      ListedFirstLoadsFirst(w);
    }
    if FreeLoadFirst(w) {
      LoadsFirstListedFirst(w);
    }
  }

  /** The plugin has dependencies, all of them enabled, free of dependencies themselves and listed earlier. */
  ghost predicate OnFreeOnly(w: World, p: Id) {
    w.Eligible(p) && !IsFree(w, p) &&
    forall d <- w.manifests[p].dependencies :: w.Eligible(d) && IsFree(w, d) && Pos(w, d) < Pos(w, p)
  }

  /** The first plugin with dependencies that a pass loads depends on free ones only. */
  lemma {:induction false} OnFreeOnlyBefore(w: World, p: Id) returns (f: Id)
    requires Plain(w) && w.Eligible(p) && !IsFree(w, p) && Resolvable(w, p, 0)
    ensures OnFreeOnly(w, f) && Resolvable(w, f, 0) && Pos(w, f) <= Pos(w, p)
    decreases Pos(w, p)
  {
    hide Resolvable, LateSteps;
    assert Rounds(w, 1) == Pass(w, Rounds(w, 0)) == Pass(w, {});
    FirstPassLoads(w, p);
    RoundMember(w, 0, p);
    if d :| d in w.manifests[p].dependencies && !IsFree(w, d) {
      FirstPassLoads(w, d);
      PassOnlyEligible(w, {}, |w.order|, d);
      f := OnFreeOnlyBefore(w, d);
    } else {
      forall d <- w.manifests[p].dependencies
        ensures w.Eligible(d)
      {
        PassOnlyEligible(w, {}, |w.order|, d);
      }
      f := p;
    }
  }

  lemma OnFreeOnlyResolves(w: World, p: Id)
    requires Plain(w) && OnFreeOnly(w, p)
    ensures Resolvable(w, p, 0)
  {
    hide Resolvable, LateSteps;
    assert Rounds(w, 1) == Pass(w, Rounds(w, 0)) == Pass(w, {});
    forall d <- w.manifests[p].dependencies
      ensures d in Rounds(w, 1)
    {
      FirstPassLoads(w, d);
    }
    RoundMember(w, 0, p);
    FirstPassLoads(w, p);
  }

  /** The same condition read off the listing: only plugins that depend on free ones alone can come too early. */
  lemma FreeLoadFirstByListing(w: World)
    requires Plain(w)
    ensures FreeLoadFirst(w) <==>
              forall q, p :: w.Eligible(q) && IsFree(w, q) && OnFreeOnly(w, p) ==> Pos(w, q) < Pos(w, p)
  {
    hide FreeLoadFirst, Resolvable;
    FreeLoadFirstIff(w);
    if FreeListedFirst(w) {
      forall q, p | w.Eligible(q) && IsFree(w, q) && OnFreeOnly(w, p)
        ensures Pos(w, q) < Pos(w, p)
      {
        OnFreeOnlyResolves(w, p);
      }
    } else {
      var q, p :| w.Eligible(q) && IsFree(w, q) && w.Eligible(p) && !IsFree(w, p) && Resolvable(w, p, 0)
                  && Pos(w, p) <= Pos(w, q);
      var f := OnFreeOnlyBefore(w, p);
    }
  }

  /** A listing on which it fails: b, which depends on a, is loaded before the free c. */
  lemma FreePluginCanLoadLater()
    ensures exists w: World :: Plain(w) && !FreeLoadFirst(w)
  {
    var free, b := Manifest([], [], None), Manifest(["a"], [], None);
    var w := World(["a", "b", "c"], map["a" := free, "b" := b, "c" := free], {"a", "b", "c"});
    assert "a" != "b" && "b" != "c" && "a" != "c";
    assert Plain(w) && w.order[0] == "a" && w.order[1] == "b" && w.order[2] == "c";
    assert OnFreeOnly(w, "b") && w.Eligible("c") && IsFree(w, "c") && Pos(w, "b") < Pos(w, "c");
    FreeLoadFirstByListing(w);
  }

  // ---------- repeated calls ----------

  /** A set closed under loading: it holds every eligible plugin whose dependencies it holds. */
  ghost predicate LoadClosed(w: World, s: set<Id>) {
    forall p <- w.manifests :: w.Eligible(p) && (forall d <- w.manifests[p].dependencies :: d in s) ==> p in s
  }

  lemma {:induction false} PassInsideClosed(w: World, loaded: set<Id>, k: nat, s: set<Id>)
    requires Plain(w) && k <= |w.order| && loaded <= s && LoadClosed(w, s)
    ensures PassTo(w, loaded, k) <= s
  {
    if k > 0 {
      PassInsideClosed(w, loaded, k - 1, s);
      PlainLoads(w, w.order[k - 1], PassTo(w, loaded, k - 1));
    }
  }

  lemma {:induction false} RoundsInsideClosed(w: World, r: nat, s: set<Id>)
    requires Plain(w) && LoadClosed(w, s)
    ensures Rounds(w, r) <= s
  {
    if r > 0 {
      RoundsInsideClosed(w, r - 1, s);
      PassInsideClosed(w, Rounds(w, r - 1), |w.order|, s);
    }
  }

  lemma StableIsClosed(w: World, r: nat)
    requires Plain(w) && Rounds(w, r + 1) == Rounds(w, r)
    ensures LoadClosed(w, Rounds(w, r))
  {
    forall p <- w.manifests | w.Eligible(p) && (forall d <- w.manifests[p].dependencies :: d in Rounds(w, r))
      ensures p in Rounds(w, r)
    {
      RoundMember(w, r, p);
    }
  }

  lemma {:induction false} StableStays(w: World, r: nat, s: nat)
    requires r <= s && Rounds(w, r + 1) == Rounds(w, r)
    ensures Rounds(w, s) == Rounds(w, r) && Rounds(w, s + 1) == Rounds(w, r)
    decreases s
  {
    if r < s {
      StableStays(w, r, s - 1);
    }
  }

  function Listed(w: World): set<Id> {
    set id <- w.order
  }

  lemma {:induction false} ListedSize(order: seq<Id>)
    ensures |(set id <- order)| <= |order|
  {
    if order != [] {
      var n := |order| - 1;
      ListedSize(order[..n]);
      assert (set id <- order) == (set id <- order[..n]) + {order[n]};
    }
  }

  /** Each round that changes anything loads another plugin, so the rounds settle within the listing's length. */
  lemma {:induction false} RoundsCount(w: World, r: nat)
    requires Plain(w)
    ensures Rounds(w, r + 1) == Rounds(w, r) || |Rounds(w, r + 1)| >= r + 1
  {
    RoundsGrow(w, r);
    if Rounds(w, r + 1) != Rounds(w, r) {
      Sets.SubsetSize(Rounds(w, r), Rounds(w, r + 1));
      if r > 0 {
        RoundsCount(w, r - 1);
      }
    }
  }

  lemma RoundsSettle(w: World, r: nat)
    requires Plain(w) && r >= |w.order|
    ensures Rounds(w, r + 1) == Rounds(w, r)
  {
    RoundsCount(w, r);
    if Rounds(w, r + 1) != Rounds(w, r) {
      forall p <- Rounds(w, r + 1)
        ensures p in Listed(w)
      {
        RoundsEligible(w, r + 1, p);
      }
      Sets.SubsetSize(Rounds(w, r + 1), Listed(w));
      ListedSize(w.order);
      assert false;
    }
  }

  /** The loaded set after `k` calls from nothing. */
  function Calls(w: World, k: nat): set<Id> {
    if k == 0 then {} else LoadEnabled(w, Calls(w, k - 1))
  }

  lemma {:induction false} CallsAreRounds(w: World, k: nat)
    ensures Calls(w, k) == Rounds(w, 2 * k)
  {
    if k > 0 {
      CallsAreRounds(w, k - 1);
      RoundsOnlyEnabled(w, 2 * (k - 1));
      assert Calls(w, k - 1) * w.enabled == Calls(w, k - 1);
      assert Rounds(w, 2 * k - 1) == Pass(w, Rounds(w, 2 * (k - 1)));
      assert Rounds(w, 2 * k) == Pass(w, Rounds(w, 2 * k - 1));
    }
  }

  lemma {:induction false} RoundsOnlyEnabled(w: World, r: nat)
    ensures Rounds(w, r) <= w.enabled
  {
    if r > 0 {
      RoundsOnlyEnabled(w, r - 1);
      PassOnlyEnabled(w, Rounds(w, r - 1), |w.order|);
    }
  }

  /** After half as many calls as plugins (rounded up) the loaded set is the least load-closed set, and stays it. */
  lemma CallsReachLeast(w: World, k: nat)
    requires Plain(w) && 2 * k >= |w.order|
    ensures LoadClosed(w, Calls(w, k))
    ensures forall s: set<Id> :: LoadClosed(w, s) ==> Calls(w, k) <= s
    ensures Calls(w, k + 1) == Calls(w, k)
  {
    hide LoadClosed, Rounds, Plain, Calls;
    CallsAreRounds(w, k);
    CallsAreRounds(w, k + 1);
    RoundsSettle(w, 2 * k);
    StableIsClosed(w, 2 * k);
    StableStays(w, 2 * k, 2 * k + 2);
    forall s: set<Id> | LoadClosed(w, s)
      ensures Calls(w, k) <= s
    {
      RoundsInsideClosed(w, 2 * k, s);
    }
  }

  /** The settled set does not depend on the order of the listing. */
  lemma OrderDoesNotMatter(w: World, order': seq<Id>, k: nat)
    requires Plain(w) && Plain(w.(order := order')) && 2 * k >= |w.order| && 2 * k >= |order'|
    requires forall id :: id in order' <==> id in w.order
    ensures Calls(w.(order := order'), k) == Calls(w, k)
  {
    var w' := w.(order := order');
    CallsReachLeast(w, k);
    CallsReachLeast(w', k);
    forall s: set<Id>
      ensures LoadClosed(w, s) <==> LoadClosed(w', s)
    {
    }
    assert Calls(w, k) <= Calls(w', k) <= Calls(w, k);
  }
}
