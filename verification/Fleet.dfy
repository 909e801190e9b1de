/**
 The imperative side of reconciliation: the runtime manager, the loops of the two passes over it, and the
 executor's registry of manifests in use. Every driver call may fail; faults counts the failures.
 */
module Fleet {
  import opened Basics
  import opened GoStrings
  import opened Reconcile
  import opened Sorting

  // ------------------------------------------------------ manifests in use

  datatype ModelRef = ModelRef(source: string, machineId: string, modelId: string)

  predicate Local(m: ModelRef, machine: string) {
    m.source == "machine" && TrimSpace(m.machineId) == TrimSpace(machine) && !Blank(m.modelId)
  }

  // A non-blank ID under which this machine itself serves the model.
  predicate Answers(m: ModelRef, machine: string, id: string) {
    m.source == "machine" && TrimSpace(m.machineId) == TrimSpace(machine) && TrimSpace(m.modelId) == id && id != ""
  }

  ghost predicate Active(manifests: map<string, seq<ModelRef>>, machine: string, id: string) {
    exists c, m :: c in manifests && m in manifests[c] && Answers(m, machine, id)
  }

  class Manifests {
    var active: map<string, seq<ModelRef>>

    constructor ()
      ensures active == map[]
    { active := map[]; }

    method Register(commandId: string, manifest: Option<seq<ModelRef>>)
      modifies this
      ensures active == if manifest.None? || Blank(commandId) then old(active)
                        else old(active)[commandId := manifest.value]
    {
      if manifest.None? || Blank(commandId) { return; }
      active := active[commandId := manifest.value];
    }

    method Unregister(commandId: string)
      modifies this
      ensures active == if Blank(commandId) then old(active) else old(active) - {commandId}
    {
      if Blank(commandId) { return; }
      active := active - {commandId};
    }

    /** Each local model of a registered manifest, once, under its trimmed ID, and nothing else. */
    method ActiveModelIds(machine: string) returns (ids: seq<string>)
      ensures forall id :: id in ids <==> Active(active, machine, id)
      ensures forall i, j :: 0 <= i < j < |ids| ==> ids[i] != ids[j]
    {
      ids := [];
      var commands := active.Keys;
      while commands != {}
        invariant commands <= active.Keys
        invariant forall id :: id in ids <==> Active(Without(active, commands), machine, id)
        invariant forall i, j :: 0 <= i < j < |ids| ==> ids[i] != ids[j]
        decreases commands
      {
        var c :| c in commands;
        ghost var before := ids;
        var models := active[c];
        for k := 0 to |models|
          invariant forall id :: id in ids <==> id in before || Listed(models[..k], machine, id)
          invariant forall i, j :: 0 <= i < j < |ids| ==> ids[i] != ids[j]
        {
          var id := TrimSpace(models[k].modelId);
          assert models[..k + 1] == models[..k] + [models[k]];
          assert Local(models[k], machine) <==> Answers(models[k], machine, id);
          if Local(models[k], machine) && id !in ids { ids := ids + [id]; }
        }
        assert models[..|models|] == models;
        ActiveGrows(active, commands, c, machine);
        commands := commands - {c};
      }
      assert Without(active, {}) == active;
    }
  }

  ghost predicate Listed(models: seq<ModelRef>, machine: string, id: string) {
    exists m :: m in models && Answers(m, machine, id)
  }

  ghost function Without(manifests: map<string, seq<ModelRef>>, commands: set<string>): map<string, seq<ModelRef>> {
    manifests - commands
  }

  lemma ActiveGrows(manifests: map<string, seq<ModelRef>>, commands: set<string>, c: string, machine: string)
    requires commands <= manifests.Keys && c in commands
    ensures forall id :: Active(Without(manifests, commands - {c}), machine, id)
                         <==> Active(Without(manifests, commands), machine, id) || Listed(manifests[c], machine, id)
  {
    var small, large := Without(manifests, commands), Without(manifests, commands - {c});
    assert large == small[c := manifests[c]];
    forall id | Active(large, machine, id) ensures Active(small, machine, id) || Listed(manifests[c], machine, id) {
      var k, m :| k in large && m in large[k] && Answers(m, machine, id);
      assert k == c || (k in small && small[k] == large[k]);
    }
    forall id | Active(small, machine, id) || Listed(manifests[c], machine, id) ensures Active(large, machine, id) {
      if Active(small, machine, id) {
        var k, m :| k in small && m in small[k] && Answers(m, machine, id);
        assert k in large && m in large[k];
      } else {
        var m :| m in manifests[c] && Answers(m, machine, id);
        assert c in large && m in large[c];
      }
    }
  }

  // ------------------------------------------------------- runtime manager

  function TrimmedIds(ids: seq<string>): set<string> {
    set m | m in ids && !Blank(m) :: TrimSpace(m)
  }

  // Runtimes and models are only added.
  ghost predicate Grows(s: State, t: State) {
    && s.installed <= t.installed && s.models.Keys <= t.models.Keys
    && forall r :: r in s.models ==> s.models[r] <= t.models[r]
  }

  lemma GrowsTransitive(s: State, t: State, u: State)
    requires Grows(s, t) && Grows(t, u)
    ensures Grows(s, u)
  {
    forall r | r in s.models ensures s.models[r] <= u.models[r] { assert s.models[r] <= t.models[r] <= u.models[r]; }
  }

  // Routing, case by case.
  lemma RouteSlash(registry: set<string>, s: State, modelId: string)
    requires Valid(registry, s) && '/' in TrimSpace(modelId)
    ensures Norm(VLLM) == VLLM
    ensures Apply(registry, s, Route(modelId)) == Apply(registry, s, PrepareAt(VLLM, TrimSpace(modelId)))
  {
    NormOfNames();
  }

  lemma RouteColon(registry: set<string>, s: State, modelId: string)
    requires Valid(registry, s) && '/' !in TrimSpace(modelId) && ':' in TrimSpace(modelId) && OLLAMA in registry
    ensures Apply(registry, s, Route(modelId)) == Apply(registry, s, PrepareAt(OLLAMA, TrimSpace(modelId)))
  {
    NormOfNames();
  }

  lemma RoutePreferred(registry: set<string>, s: State, modelId: string)
    requires Valid(registry, s) && TrimSpace(modelId) != "" && '/' !in TrimSpace(modelId)
    requires ':' in TrimSpace(modelId) ==> OLLAMA !in registry
    ensures Serves(registry, s.installed, Route(modelId)) == Preferred(s.installed, TrimSpace(modelId))
    ensures OLLAMA !in registry ==> Apply(registry, s, PrepareAt(OLLAMA, TrimSpace(modelId))) == s
  {
    NormOfNames();
  }

  class Manager {
    const registry: set<string>
    var installed: set<string>
    var models: map<string, set<string>>
    var faults: nat

    ghost predicate Ok() reads this { Valid(registry, State(installed, models)) }

    ghost function Now(): State reads this { State(installed, models) }

    ghost predicate Grown(s: State) reads this { Grows(s, Now()) }

    /** Installs what is missing, restarts what is not ready. */
    method EnsureRuntime(runtime: string) returns (ok: bool)
      requires Ok()
      modifies this`installed, this`faults
      ensures Ok() && Grown(old(Now())) && faults >= old(faults)
      ensures ok ==> Norm(runtime) in installed
      ensures faults == old(faults) ==> (ok <==> Norm(runtime) in registry)
      ensures ok || faults == old(faults) ==> Now() == Apply(registry, old(Now()), Ensure(runtime))
    {
      var r := Norm(runtime);
      if r !in registry { return false; }
      var works: bool := *;
      var stays: bool := *;
      if works || stays { installed := installed + {r}; }
      ok := works;
      if !works { faults := faults + 1; }
      assert models[r] + {} == models[r];
      assert models[r := models[r] + {}] == models;
    }

    method Prepare(runtime: string, id: string)
      requires Ok() && runtime in installed
      modifies this`models, this`faults
      ensures Ok() && Grown(old(Now())) && faults >= old(faults)
      ensures faults == old(faults) ==> models == old(models)[runtime := old(models)[runtime] + {id}]
    {
      var works: bool := *;
      var stays: bool := *;
      if works || stays { models := models[runtime := models[runtime] + {id}]; }
      if !works { faults := faults + 1; }
    }

    method InstalledRuntimes() returns (names: seq<string>)
      requires Ok()
      ensures Sorted(names) && (forall r :: r in names <==> r in installed) && multiset(names) == multiset(installed)
    {
      names := [];
      var rest := installed;
      while rest != {}
        invariant rest <= installed && multiset(names) == multiset(installed - rest)
        decreases rest
      {
        var r :| r in rest;
        names, rest := names + [r], rest - {r};
        assert installed - rest == (installed - (rest + {r})) + {r};
      }
      SortSorts(names);
      names := Sort(names);
      forall r ensures r in names <==> r in installed { assert r in names <==> r in multiset(names); }
    }

    method PreparePreferred(id: string)
      requires Ok()
      modifies this`models, this`faults
      ensures Ok() && Grown(old(Now())) && faults >= old(faults)
      ensures faults == old(faults) ==>
                var r := Preferred(installed, id);
                models == if r.None? then old(models) else old(models)[r.value := old(models)[r.value] + {id}]
    {
      if '/' in id && VLLM in installed {
        Prepare(VLLM, id);
      } else if ':' in id && OLLAMA in installed {
        Prepare(OLLAMA, id);
      } else {
        var names := InstalledRuntimes();
        if |names| > 0 {
          assert names[0] in installed;
          forall x | x in installed ensures LexLe(names[0], x) { HeadLeast(names, x); }
          FirstUnique(installed, names[0]);
          Prepare(names[0], id);
        }
      }
    }

    // Ensures the runtime, then prepares the model on it.
    method PrepareAtRuntime(runtime: string, id: string) returns (ok: bool)
      requires Ok() && Norm(runtime) == runtime
      modifies this`installed, this`models, this`faults
      ensures Ok() && Grown(old(Now())) && faults >= old(faults)
      ensures faults == old(faults) ==> (ok <==> runtime in registry)
      ensures faults == old(faults) ==> Now() == Apply(registry, old(Now()), PrepareAt(runtime, id))
    {
      ok := EnsureRuntime(runtime);
      if ok { Prepare(runtime, id); }
    }

    /** The routing of a model that names no runtime. */
    method PrepareModel(modelId: string)
      requires Ok()
      modifies this`installed, this`models, this`faults
      ensures Ok() && Grown(old(Now())) && faults >= old(faults)
      ensures faults == old(faults) ==> Now() == Apply(registry, old(Now()), Route(modelId))
    {
      var id := TrimSpace(modelId);
      if id == "" { return; }
      if '/' in id {
        RouteSlash(registry, Now(), modelId);
        var ok := PrepareAtRuntime(VLLM, id);
        return;
      }
      PrepareUnslashed(id, modelId);
    }

    // The rest of the routing, for an ID with no slash.
    method PrepareUnslashed(id: string, ghost modelId: string)
      requires Ok() && id == TrimSpace(modelId) && id != "" && '/' !in id
      modifies this`installed, this`models, this`faults
      ensures Ok() && Grown(old(Now())) && faults >= old(faults)
      ensures faults == old(faults) ==> Now() == Apply(registry, old(Now()), Route(modelId))
    {
      if ':' in id {
        NormOfNames();
        if OLLAMA in registry { RouteColon(registry, Now(), modelId); }
        var ok := PrepareAtRuntime(OLLAMA, id);
        if ok { return; }
      }
      ghost var mid := Now();
      if ':' in id ==> OLLAMA !in registry { RoutePreferred(registry, old(Now()), modelId); }
      PreparePreferred(id);
      GrowsTransitive(old(Now()), mid, Now());
    }

    method PrepareModelWithRuntime(modelId: string, runtime: string)
      requires Ok()
      modifies this`installed, this`models, this`faults
      ensures Ok() && Grown(old(Now())) && faults >= old(faults)
      ensures faults == old(faults) ==> Now() == Apply(registry, old(Now()), TargetIntent(Target(modelId, runtime)))
    {
      if Blank(runtime) {
        PrepareModel(modelId);
      } else {
        NormIdempotent(runtime);
        var ok := PrepareAtRuntime(Norm(runtime), modelId);
      }
    }

    method EnsureAll(runtimes: seq<string>)
      requires Ok()
      modifies this`installed, this`faults
      ensures Ok() && Grown(old(Now())) && faults >= old(faults)
      ensures faults == old(faults) ==> Now() == ApplyAll(registry, old(Now()), EnsureIntents(runtimes))
    {
      for i := 0 to |runtimes|
        invariant Ok() && Grown(old(Now())) && faults >= old(faults)
        invariant faults == old(faults) ==> Now() == ApplyAll(registry, old(Now()), EnsureIntents(runtimes[..i]))
      {
        var ok := EnsureRuntime(runtimes[i]);
        assert runtimes[..i + 1][..i] == runtimes[..i];
        ApplyLast(registry, old(Now()), EnsureIntents(runtimes[..i]), Ensure(runtimes[i]));
      }
      assert runtimes[..|runtimes|] == runtimes;
    }

    method PrepareTargets(eject: bool, targets: seq<Target>) returns (handled: set<string>)
      requires Ok()
      modifies this`installed, this`models, this`faults
      ensures handled == Handled(targets)
      ensures Ok() && Grown(old(Now())) && faults >= old(faults)
      ensures faults == old(faults) ==> Now() == ApplyAll(registry, old(Now()), TargetIntents(eject, targets))
    {
      handled := {};
      for i := 0 to |targets|
        invariant Ok() && Grown(old(Now())) && faults >= old(faults)
        invariant handled == Handled(targets[..i])
        invariant faults == old(faults) ==> Now() == ApplyAll(registry, old(Now()), TargetIntents(eject, targets[..i]))
      {
        var t := targets[i];
        handled := handled + {t.modelId};
        HandledLast(targets, i);
        assert targets[..i + 1][..i] == targets[..i];
        if eject && Norm(t.runtime) == LLAMACPP { continue; }
        PrepareModelWithRuntime(t.modelId, t.runtime);
        ApplyLast(registry, old(Now()), TargetIntents(eject, targets[..i]), TargetIntent(t));
      }
      assert targets[..|targets|] == targets;
    }

    method PrepareRest(ids: seq<string>, handled: set<string>)
      requires Ok()
      modifies this`installed, this`models, this`faults
      ensures Ok() && Grown(old(Now())) && faults >= old(faults)
      ensures faults == old(faults) ==> Now() == ApplyAll(registry, old(Now()), ModelIntents(ids, handled))
    {
      for i := 0 to |ids|
        invariant Ok() && Grown(old(Now())) && faults >= old(faults)
        invariant faults == old(faults) ==> Now() == ApplyAll(registry, old(Now()), ModelIntents(ids[..i], handled))
      {
        assert ids[..i + 1][..i] == ids[..i];
        if ids[i] in handled { continue; }
        PrepareModel(ids[i]);
        ApplyLast(registry, old(Now()), ModelIntents(ids[..i], handled), Route(ids[i]));
      }
      assert ids[..|ids|] == ids;
    }

    /** The enforcing pass: with no failing driver call it ends exactly where the plan of intents says. */
    method EnforceDesired(eject: bool, d: Desired)
      requires Ok()
      modifies this`installed, this`models, this`faults
      ensures Ok() && Grown(old(Now())) && faults >= old(faults)
      ensures faults == old(faults) ==> Now() == Enforced(registry, old(Now()), eject, d)
    {
      EnsureAll(d.runtimes);
      var handled := PrepareTargets(eject, d.targets);
      PrepareRest(d.models, handled);
      ApplyBoth(registry, old(Now()), EnsureIntents(d.runtimes), TargetIntents(eject, d.targets));
      ApplyBoth(registry, old(Now()), EnsureIntents(d.runtimes) + TargetIntents(eject, d.targets),
                ModelIntents(d.models, handled));
    }

    /** A failed removal may or may not have removed the model. */
    method RemoveModel(runtime: string, id: string)
      requires Ok() && runtime in registry
      modifies this`models, this`faults
      ensures Ok() && faults >= old(faults) && models.Keys == old(models).Keys
      ensures forall r :: r in models && r != runtime ==> models[r] == old(models)[r]
      ensures old(models)[runtime] - {id} <= models[runtime] <= old(models)[runtime]
      ensures faults == old(faults) ==> id !in models[runtime]
    {
      var works: bool := *;
      var goes: bool := *;
      if works || goes { models := models[runtime := models[runtime] - {id}]; }
      if !works { faults := faults + 1; }
    }

    /** One runtime's share of the stale pass; wanted is what the desired state names for this runtime. */
    method ReconcileRuntime(runtime: string, eject: bool, protected: set<string>, global: set<string>,
                            wanted: set<string>, ghost d: Desired)
      requires Ok() && runtime in registry && global == DesiredIds(d) && wanted <= global
      modifies this`models, this`faults
      ensures Ok() && faults >= old(faults) && models.Keys == old(models).Keys
      ensures forall r :: r in models && r != runtime ==> models[r] == old(models)[r]
      ensures Kept(d, eject, protected, runtime, old(models)[runtime]) <= models[runtime] <= old(models)[runtime]
      ensures faults == old(faults) ==> models[runtime] == Kept(d, eject, protected, runtime, old(models)[runtime])
      ensures faults == old(faults) ==> forall m :: m in old(models)[runtime] ==>
                (m in models[runtime] <==>
                  TrimSpace(m) != m || m == "" || m in protected || (!(eject && runtime == "llamacpp") && m in global))
    {
      var listed := models[runtime];
      var rest := listed;
      ghost var kept := Kept(d, eject, protected, runtime, listed);
      while rest != {}
        invariant Ok() && faults >= old(faults) && models.Keys == old(models).Keys && rest <= listed
        invariant forall r :: r in models && r != runtime ==> models[r] == old(models)[r]
        invariant kept <= models[runtime] <= listed
        invariant faults == old(faults) ==> models[runtime] <= kept + rest
        decreases rest
      {
        var raw :| raw in rest;
        rest := rest - {raw};
        var id := TrimSpace(raw);
        TrimIdempotent(raw);
        if id == "" { continue; }
        if id in protected { continue; }
        if !(eject && runtime == LLAMACPP) {
          if id in global { continue; }
          if id in wanted { continue; }
        }
        RemoveModel(runtime, id);
      }
    }

    /**
     The stale pass. With no failing removal a model goes from an installed runtime exactly if it is listed under
     its trimmed, non-blank ID, no protected ID is that one, and neither a target nor a plain model is, unless the
     runtime is llamacpp under ejection, where being asked for does not help. Whatever fails, nothing else goes,
     nothing comes, and the other runtimes are left alone.
     */
    method ReconcileStale(eject: bool, d: Desired, protectedIds: seq<string>)
      requires Ok()
      modifies this`models, this`faults
      ensures Ok() && faults >= old(faults)
      ensures Thinned(d, eject, TrimmedIds(protectedIds), old(models), models, installed)
      ensures faults == old(faults) ==> Now() == Reconciled(old(Now()), d, eject, TrimmedIds(protectedIds))
      ensures models.Keys == old(models).Keys
      ensures forall r :: r in models && r !in installed ==> models[r] == old(models)[r]
      ensures forall r :: r in models && r in installed ==> models[r] <= old(models)[r]
      ensures forall r, m :: r in installed && m in old(models)[r]
                && (TrimSpace(m) != m || m == "" || (exists p :: p in protectedIds && TrimSpace(p) == m)
                    || Asked(d, eject, r, m))
                ==> m in models[r]
      ensures faults == old(faults) ==> forall r, m :: r in installed && m in old(models)[r] && m in models[r] ==>
                TrimSpace(m) != m || m == "" || (exists p :: p in protectedIds && TrimSpace(p) == m)
                || Asked(d, eject, r, m)
    {
      forall r, m | r in installed && m in models[r] { KeptMeans(d, eject, protectedIds, r, models[r], m); }
      var protected := TrimAll(protectedIds);
      var global, byRuntime := Wanted(d);
      var names := InstalledRuntimes();
      ReconcileEach(names, eject, protected, global, byRuntime, d);
      if faults == old(faults) { ExactIsReconciled(d, eject, protected, old(Now()), Now()); }
    }

    method ReconcileEach(names: seq<string>, eject: bool, protected: set<string>, global: set<string>,
                         byRuntime: map<string, set<string>>, ghost d: Desired)
      requires Ok() && multiset(names) == multiset(installed) && global == DesiredIds(d)
      requires forall r :: r in byRuntime ==> byRuntime[r] <= global
      modifies this`models, this`faults
      ensures Ok() && faults >= old(faults)
      ensures Thinned(d, eject, protected, old(models), models, installed)
      ensures faults == old(faults) ==> Exact(d, eject, protected, old(models), models, installed)
    {
      ghost var done: set<string> := {};
      for i := 0 to |names|
        invariant Ok() && faults >= old(faults)
        invariant forall r :: r in done <==> r in names[..i]
        invariant Thinned(d, eject, protected, old(models), models, done)
        invariant faults == old(faults) ==> Exact(d, eject, protected, old(models), models, done)
      {
        var r := names[i];
        Once(names, i, installed);
        ghost var mid := models;
        var wanted := if r in byRuntime then byRuntime[r] else {};
        ReconcileRuntime(r, eject, protected, global, wanted, d);
        ThinnedStep(d, eject, protected, old(models), mid, models, done, r);
        done := done + {r};
        assert names[..i + 1] == names[..i] + [r];
      }
      assert names[..|names|] == names;
      SameElements(names, installed);
      assert done == installed;
    }
  }

  // A target or a plain model asks for m, and r is not llamacpp under ejection.
  ghost predicate Asked(d: Desired, eject: bool, r: string, m: string) {
    && !(eject && r == "llamacpp")
    && ((exists t :: t in d.targets && TrimSpace(t.modelId) == m) || exists x :: x in d.models && TrimSpace(x) == m)
  }

  // What is kept, said without the functions that compute it.
  lemma KeptMeans(d: Desired, eject: bool, protectedIds: seq<string>, r: string, ids: set<string>, m: string)
    requires m in ids
    ensures m in Kept(d, eject, TrimmedIds(protectedIds), r, ids) <==>
              TrimSpace(m) != m || m == "" || (exists p :: p in protectedIds && TrimSpace(p) == m)
              || Asked(d, eject, r, m)
  {
    if m != "" {
      AskedFor(d, m);
      assert m in TrimmedIds(protectedIds) <==> exists p :: p in protectedIds && TrimSpace(p) == m;
    }
  }

  lemma AskedFor(d: Desired, m: string)
    requires m != ""
    ensures m in DesiredIds(d) <==> (exists t :: t in d.targets && TrimSpace(t.modelId) == m)
                                    || exists x :: x in d.models && TrimSpace(x) == m
  {
    if t :| t in d.targets && TrimSpace(t.modelId) == m { assert !Blank(t.modelId); }
    if x :| x in d.models && TrimSpace(x) == m { assert !Blank(x); }
  }

  lemma SameElements(names: seq<string>, all: set<string>)
    requires multiset(names) == multiset(all)
    ensures forall r :: r in names <==> r in all
  {
    forall r ensures r in names <==> r in all { assert r in names <==> r in multiset(names); }
  }

  // The runtimes done have lost at most what they may, the others nothing.
  ghost predicate Thinned(d: Desired, eject: bool, protected: set<string>,
                          before: map<string, set<string>>, after: map<string, set<string>>, done: set<string>) {
    && after.Keys == before.Keys
    && (forall r :: r in before && r !in done ==> after[r] == before[r])
    && (forall r :: r in before && r in done ==> Kept(d, eject, protected, r, before[r]) <= after[r] <= before[r])
  }

  ghost predicate Exact(d: Desired, eject: bool, protected: set<string>,
                        before: map<string, set<string>>, after: map<string, set<string>>, done: set<string>) {
    forall r :: r in before && r in after && r in done ==> after[r] == Kept(d, eject, protected, r, before[r])
  }

  lemma ExactIsReconciled(d: Desired, eject: bool, protected: set<string>, s: State, t: State)
    requires t.installed == s.installed
    requires Thinned(d, eject, protected, s.models, t.models, s.installed)
    requires Exact(d, eject, protected, s.models, t.models, s.installed)
    ensures t == Reconciled(s, d, eject, protected)
  {
    assert t.models == Reconciled(s, d, eject, protected).models;
  }

  lemma ThinnedStep(d: Desired, eject: bool, protected: set<string>, before: map<string, set<string>>,
                    mid: map<string, set<string>>, after: map<string, set<string>>, done: set<string>, r: string)
    requires Thinned(d, eject, protected, before, mid, done) && r in before && r !in done && after.Keys == mid.Keys
    requires forall x :: x in mid && x != r ==> after[x] == mid[x]
    requires Kept(d, eject, protected, r, before[r]) <= after[r] <= before[r]
    ensures Thinned(d, eject, protected, before, after, done + {r})
    ensures Exact(d, eject, protected, before, mid, done) && after[r] == Kept(d, eject, protected, r, before[r]) ==>
              Exact(d, eject, protected, before, after, done + {r})
  {
  }

  method TrimAll(ids: seq<string>) returns (trimmed: set<string>)
    ensures trimmed == TrimmedIds(ids)
  {
    trimmed := {};
    for i := 0 to |ids|
      invariant trimmed == TrimmedIds(ids[..i])
    {
      assert ids[..i + 1] == ids[..i] + [ids[i]];
      if !Blank(ids[i]) { trimmed := trimmed + {TrimSpace(ids[i])}; }
    }
    assert ids[..|ids|] == ids;
  }

  /** The desired IDs, and per named runtime a part of them: the per-runtime check can never keep anything more. */
  method Wanted(d: Desired) returns (global: set<string>, byRuntime: map<string, set<string>>)
    ensures global == DesiredIds(d)
    ensures forall r :: r in byRuntime ==> byRuntime[r] <= global
    ensures forall r, m :: r in byRuntime && m in byRuntime[r] ==>
              exists t :: t in d.targets && Norm(t.runtime) == r && TrimSpace(t.modelId) == m
  {
    global, byRuntime := {}, map[];
    for i := 0 to |d.targets|
      invariant global == (set t | t in d.targets[..i] && !Blank(t.modelId) :: TrimSpace(t.modelId))
      invariant forall r :: r in byRuntime ==> byRuntime[r] <= global
      invariant forall r, m :: r in byRuntime && m in byRuntime[r] ==>
                  exists t :: t in d.targets && Norm(t.runtime) == r && TrimSpace(t.modelId) == m
    {
      var t := d.targets[i];
      assert d.targets[..i + 1] == d.targets[..i] + [t];
      var id := TrimSpace(t.modelId);
      if id == "" { continue; }
      global := global + {id};
      var r := Norm(t.runtime);
      if r != "" {
        byRuntime := byRuntime[r := (if r in byRuntime then byRuntime[r] else {}) + {id}];
      }
    }
    assert d.targets[..|d.targets|] == d.targets;
    var plain := TrimAll(d.models);
    global := global + plain;
  }

  // A sorted listing of a set names each element once.
  lemma Once(names: seq<string>, i: nat, all: set<string>)
    requires i < |names| && multiset(names) == multiset(all)
    ensures names[i] in all && names[i] !in names[..i]
  {
    assert names == names[..i] + [names[i]] + names[i + 1..];
    assert multiset(names) == multiset(names[..i]) + multiset{names[i]} + multiset(names[i + 1..]);
    assert multiset(names)[names[i]] <= 1;
    assert multiset(names[..i])[names[i]] == 0;
  }

  lemma HandledLast(targets: seq<Target>, i: nat)
    requires i < |targets|
    ensures Handled(targets[..i + 1]) == Handled(targets[..i]) + {targets[i].modelId}
  {
    assert targets[..i + 1] == targets[..i] + [targets[i]];
  }

  lemma ApplyLast(registry: set<string>, s: State, intents: seq<Intent>, i: Intent)
    requires Valid(registry, s)
    ensures ApplyAll(registry, s, intents + [i]) == Apply(registry, ApplyAll(registry, s, intents), i)
  {
    assert (intents + [i])[..|intents|] == intents;
  }

  lemma {:induction false} ApplyBoth(registry: set<string>, s: State, a: seq<Intent>, b: seq<Intent>)
    requires Valid(registry, s)
    ensures ApplyAll(registry, s, a + b) == ApplyAll(registry, ApplyAll(registry, s, a), b)
    decreases |b|
  {
    if b == [] {
      assert a + b == a;
    } else {
      var front, i := b[..|b| - 1], b[|b| - 1];
      ApplyBoth(registry, s, a, front);
      assert (a + b)[..|a + b| - 1] == a + front;
    }
  }

  // ASCII letters are no part of any space, so lower-casing leaves a trimmed name trimmed.
  lemma NormIdempotent(runtime: string)
    ensures Norm(Norm(runtime)) == Norm(runtime)
  {
    var t := TrimSpace(runtime);
    TrimSpaceTrims(runtime);
    assert LeadSpace(ToLower(t)) == LeadSpace(t) && TrailSpace(ToLower(t)) == TrailSpace(t);
    assert TrimSpace(ToLower(t)) == ToLower(t);
    assert ToLower(ToLower(t)) == ToLower(t);
  }

  lemma NormOfNames()
    ensures Norm(VLLM) == VLLM && Norm(OLLAMA) == OLLAMA
  {
    assert Trimmed(VLLM) && Trimmed(OLLAMA);
    assert ToLower(VLLM) == VLLM && ToLower(OLLAMA) == OLLAMA;
  }

  /**
   A local model of a manifest registered before the snapshot is never removed: not by the stale pass as
   planned and so, by the bound above, not by any run of it.
   */
  lemma ManifestModelsStay(manifests: map<string, seq<ModelRef>>, machine: string, ids: seq<string>,
                           s: State, d: Desired, eject: bool, c: string, m: ModelRef, r: string)
    requires forall id :: id in ids <==> Active(manifests, machine, id)
    requires c in manifests && m in manifests[c] && Local(m, machine)
    requires r in s.models && TrimSpace(m.modelId) in s.models[r]
    ensures TrimSpace(m.modelId) in Kept(d, eject, TrimmedIds(ids), r, s.models[r])
  {
    var id := TrimSpace(m.modelId);
    TrimIdempotent(m.modelId);
    assert Answers(m, machine, id);
    assert id in ids && !Blank(id);
  }

  // Active IDs are trimmed already, so being protected is being active.
  lemma ActiveAreTrimmed(manifests: map<string, seq<ModelRef>>, machine: string, ids: seq<string>)
    requires forall id :: id in ids <==> Active(manifests, machine, id)
    ensures forall m :: (exists p :: p in ids && TrimSpace(p) == m) <==> Active(manifests, machine, m)
  {
    forall p | Active(manifests, machine, p) ensures TrimSpace(p) == p {
      var c, m :| c in manifests && m in manifests[c] && Answers(m, machine, p);
      TrimIdempotent(m.modelId);
    }
  }

  // The stale pass with the manifests in use protected.
  method StalePass(manager: Manager, manifests: Manifests, machine: string, eject: bool, d: Desired)
      returns (ids: seq<string>)
    requires manager.Ok()
    modifies manager`models, manager`faults
    ensures manager.Ok() && manager.faults >= old(manager.faults)
    ensures forall id :: id in ids <==> Active(manifests.active, machine, id)
    ensures manager.faults == old(manager.faults) ==>
              manager.Now() == Reconciled(old(manager.Now()), d, eject, TrimmedIds(ids))
    ensures forall r, m :: r in old(manager.models) && m in old(manager.models)[r]
              && (Active(manifests.active, machine, m) || Asked(d, eject, r, m))
              ==> m in manager.models[r]
    ensures manager.faults == old(manager.faults) ==>
              forall r, m :: r in manager.installed && m in manager.models[r] && TrimSpace(m) == m && m != "" ==>
                Active(manifests.active, machine, m) || Asked(d, eject, r, m)
  {
    ids := manifests.ActiveModelIds(machine);
    ActiveAreTrimmed(manifests.active, machine, ids);
    manager.ReconcileStale(eject, d, ids);
  }

  /**
   The two passes of a successful check-in. If no driver call fails they make one cycle, and what an installed
   runtime is left with under a trimmed ID is in use by a manifest, or asked for and not on llamacpp under ejection.
   Whatever fails, a model a runtime had stays if it is one of these, a local model of a manifest in use among them.
   */
  method CheckinReconcile(manager: Manager, manifests: Manifests, machine: string, eject: bool, d: Desired)
      returns (ids: seq<string>)
    requires manager.Ok()
    modifies manager
    ensures manager.Ok() && manager.faults >= old(manager.faults)
    ensures forall id :: id in ids <==> Active(manifests.active, machine, id)
    ensures manager.faults == old(manager.faults) ==>
              manager.Now() == Cycle(manager.registry, old(manager.Now()), eject, d, TrimmedIds(ids))
    ensures forall c, m, r ::
              && c in manifests.active && m in manifests.active[c] && Local(m, machine)
              && r in old(manager.models) && TrimSpace(m.modelId) in old(manager.models)[r]
              ==> TrimSpace(m.modelId) in manager.models[r]
    ensures forall r, m :: r in old(manager.models) && m in old(manager.models)[r]
              && (Active(manifests.active, machine, m) || Asked(d, eject, r, m))
              ==> m in manager.models[r]
    ensures manager.faults == old(manager.faults) ==>
              forall r, m :: r in manager.installed && m in manager.models[r] && TrimSpace(m) == m && m != "" ==>
                Active(manifests.active, machine, m) || Asked(d, eject, r, m)
  {
    manager.EnforceDesired(eject, d);
    ids := StalePass(manager, manifests, machine, eject, d);
    forall c, m, r | c in manifests.active && m in manifests.active[c] && Local(m, machine)
                     && r in old(manager.models) && TrimSpace(m.modelId) in old(manager.models)[r]
      ensures TrimSpace(m.modelId) in manager.models[r]
    {
      assert Answers(m, machine, TrimSpace(m.modelId)) && Active(manifests.active, machine, TrimSpace(m.modelId));
    }
  }
}
