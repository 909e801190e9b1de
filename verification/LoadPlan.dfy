/**
 The memory planner: which loaded models to eject and which local models to load, whether that fits in
 memory, and the preflight that carries the plan out.
 */
module LoadPlan {
  import opened Basics
  import opened GoStrings
  import opened Memory
  import opened Sorting

  datatype Model = Model(source: string, machineId: string, modelId: string, runtime: string, parameterCount: string,
                         quantization: string, context: int, isMoe: bool, activeParams: string, endpoint: string)

  datatype Snapshot = Snapshot(total: int, used: int, unified: bool, known: bool)

  datatype Plan = Plan(eject: seq<string>, load: seq<string>, sequential: bool, projectedUsed: int,
                       projectedFree: int, headroom: int, fits: bool)

  predicate IsLocal(m: Model, machine: string) {
    m.source == "machine" && TrimSpace(m.machineId) == TrimSpace(machine)
  }

  function Locals(models: seq<Model>, machine: string): seq<Model> {
    if models == [] then [] else
    var front, m := Locals(models[..|models| - 1], machine), models[|models| - 1];
    if IsLocal(m, machine) then front + [m] else front
  }

  function Ids(models: seq<Model>): set<string> { set m | m in models :: m.modelId }

  function TrimmedElements(xs: seq<string>): set<string> { set x | x in xs :: TrimSpace(x) }

  // The local IDs the runtimes do not list, duplicates kept.
  function Missing(models: seq<Model>, loaded: set<string>): seq<string> {
    if models == [] then [] else
    var front, id := Missing(models[..|models| - 1], loaded), models[|models| - 1].modelId;
    if id in loaded then front else front + [id]
  }

  // The listed IDs no local model asks for.
  function Leftover(current: seq<string>, desired: set<string>): seq<string> {
    if current == [] then [] else
    var front, id := Leftover(current[..|current| - 1], desired), current[|current| - 1];
    if TrimSpace(id) in desired then front else front + [id]
  }

  // The last model of each ID.
  function ById(models: seq<Model>): (m: map<string, Model>)
    ensures m.Keys == Ids(models)
  {
    if models == [] then map[] else
    var front, m := models[..|models| - 1], models[|models| - 1];
    assert models == front + [m];
    ById(front)[m.modelId := m]
  }

  function Estimate(m: Model): (mb: int)
    ensures mb > 0
  {
    EstimateVRAM(m.modelId, m.runtime, m.parameterCount, m.quantization, m.context, m.isMoe, m.activeParams)
  }

  // A model about to go is known by its ID alone.
  function EstimateById(id: string): int { EstimateVRAM(id, "", "", "", 0, false, "") }

  function Reclaimable(ids: seq<string>): int {
    if ids == [] then 0 else Reclaimable(ids[..|ids| - 1]) + EstimateById(ids[|ids| - 1])
  }

  function Required(ids: seq<string>, byId: map<string, Model>): int
    requires forall id :: id in ids ==> id in byId
  {
    if ids == [] then 0 else Required(ids[..|ids| - 1], byId) + Estimate(byId[ids[|ids| - 1]])
  }

  function Largest(ids: seq<string>, byId: map<string, Model>): (mb: int)
    requires forall id :: id in ids ==> id in byId
    ensures mb >= 0 && (ids == [] <==> mb == 0)
    ensures forall id :: id in ids ==> Estimate(byId[id]) <= mb
    ensures ids != [] ==> exists id :: id in ids && Estimate(byId[id]) == mb
  {
    if ids == [] then 0 else
    var front, last := ids[..|ids| - 1], ids[|ids| - 1];
    assert ids == front + [last];
    Max(Largest(front, byId), Estimate(byId[last]))
  }

  lemma {:induction false} MissingElements(models: seq<Model>, loaded: set<string>)
    ensures forall id :: id in Missing(models, loaded) <==> id in Ids(models) && id !in loaded
  {
    if models != [] {
      var front, m := models[..|models| - 1], models[|models| - 1];
      assert models == front + [m];
      MissingElements(front, loaded);
      assert Ids(models) == Ids(front) + {m.modelId};
    }
  }

  lemma {:induction false} LeftoverElements(current: seq<string>, desired: set<string>)
    ensures forall x :: x in Leftover(current, desired) <==> x in current && TrimSpace(x) !in desired
  {
    if current != [] {
      var front, last := current[..|current| - 1], current[|current| - 1];
      assert current == front + [last];
      LeftoverElements(front, desired);
    }
  }

  function Loads(locals: seq<Model>, current: seq<string>): (ids: seq<string>)
    ensures forall id :: id in ids ==> id in ById(locals)
  {
    var missing := Missing(locals, TrimmedElements(current));
    SortElements(missing);
    MissingElements(locals, TrimmedElements(current));
    Sort(missing)
  }

  function Ejects(locals: seq<Model>, current: seq<string>): seq<string> {
    Sort(Leftover(current, Ids(locals)))
  }

  // The arithmetic of a plan.
  function Budget(eject: seq<string>, load: seq<string>, byId: map<string, Model>, snap: Snapshot): Plan
    requires forall id :: id in load ==> id in byId
  {
    Weighed(eject, load, Reclaimable(eject), Required(load, byId), Largest(load, byId),
            HeadroomMB(snap.total, snap.unified), snap)
  }

  function Weighed(eject: seq<string>, load: seq<string>, reclaimable: int, required: int, largest: int, headroom: int,
                   snap: Snapshot): Plan {
    var kept := snap.used - reclaimable;
    var used := Max(kept + required, 0);
    var fits := !snap.known || used + headroom <= snap.total;
    Plan(eject, load, snap.known && largest > 0 && !fits && kept + largest + headroom <= snap.total,
         used, Max(snap.total - used, 0), headroom, fits)
  }

  function PlanFor(locals: seq<Model>, current: seq<string>, snap: Snapshot): Plan {
    Budget(Ejects(locals, current), Loads(locals, current), ById(locals), snap)
  }

  /** The planner's loops compute that plan. */
  method PlanModelLoading(models: seq<Model>, machine: string, current: seq<string>, snap: Snapshot) returns (p: Plan)
    ensures p == PlanFor(Locals(models, machine), current, snap)
  {
    var locals := LocalManifestModels(models, machine);
    var load, byId := CollectLoads(locals, current);
    var eject := CollectEjects(current, byId.Keys);
    p := PlanBudget(Sort(eject), Sort(load), byId, snap);
  }

  method PlanBudget(eject: seq<string>, load: seq<string>, byId: map<string, Model>, snap: Snapshot) returns (p: Plan)
    requires forall id :: id in load ==> id in byId
    ensures p == Budget(eject, load, byId, snap)
  {
    var reclaimable := SumReclaimable(eject);
    var required, largest := SumRequired(load, byId);
    p := Weigh(eject, load, reclaimable, required, largest, HeadroomMB(snap.total, snap.unified), snap);
  }

  // The planner's closing arithmetic, clamped at zero in steps.
  method Weigh(eject: seq<string>, load: seq<string>, reclaimable: int, required: int, largest: int, headroom: int,
               snap: Snapshot) returns (p: Plan)
    ensures p == Weighed(eject, load, reclaimable, required, largest, headroom, snap)
  {
    var projectedUsed := snap.used - reclaimable + required;
    if projectedUsed < 0 { projectedUsed := 0; }
    var projectedFree := snap.total - projectedUsed;
    if projectedFree < 0 { projectedFree := 0; }
    var fits := !snap.known || projectedUsed + headroom <= snap.total;
    var sequential := snap.known && largest > 0 && !fits && snap.used - reclaimable + largest + headroom <= snap.total;
    p := Plan(eject, load, sequential, projectedUsed, projectedFree, headroom, fits);
  }

  method LocalManifestModels(models: seq<Model>, machine: string) returns (locals: seq<Model>)
    ensures locals == Locals(models, machine)
  {
    locals := [];
    for i := 0 to |models|
      invariant locals == Locals(models[..i], machine)
    {
      assert models[..i + 1][..i] == models[..i];
      if IsLocal(models[i], machine) { locals := locals + [models[i]]; }
    }
    assert models[..|models|] == models;
  }

  method CollectLoads(locals: seq<Model>, current: seq<string>) returns (load: seq<string>, byId: map<string, Model>)
    ensures load == Missing(locals, TrimmedElements(current)) && byId == ById(locals)
    ensures Sort(load) == Loads(locals, current)
  {
    load, byId := [], map[];
    var loaded: set<string> := {};
    for i := 0 to |current|
      invariant loaded == TrimmedElements(current[..i])
    {
      assert current[..i + 1] == current[..i] + [current[i]];
      loaded := loaded + {TrimSpace(current[i])};
    }
    assert current[..|current|] == current;
    for i := 0 to |locals|
      invariant load == Missing(locals[..i], loaded) && byId == ById(locals[..i])
    {
      var m := locals[i];
      assert locals[..i + 1][..i] == locals[..i];
      byId := byId[m.modelId := m];
      if m.modelId !in loaded { load := load + [m.modelId]; }
    }
    assert locals[..|locals|] == locals;
  }

  method CollectEjects(current: seq<string>, desired: set<string>) returns (eject: seq<string>)
    ensures eject == Leftover(current, desired)
  {
    eject := [];
    for i := 0 to |current|
      invariant eject == Leftover(current[..i], desired)
    {
      assert current[..i + 1][..i] == current[..i];
      if TrimSpace(current[i]) !in desired { eject := eject + [current[i]]; }
    }
    assert current[..|current|] == current;
  }

  method SumReclaimable(ids: seq<string>) returns (sum: int)
    ensures sum == Reclaimable(ids)
  {
    sum := 0;
    for i := 0 to |ids|
      invariant sum == Reclaimable(ids[..i])
    {
      assert ids[..i + 1][..i] == ids[..i];
      sum := sum + EstimateById(ids[i]);
    }
    assert ids[..|ids|] == ids;
  }

  method SumRequired(ids: seq<string>, byId: map<string, Model>) returns (sum: int, largest: int)
    requires forall id :: id in ids ==> id in byId
    ensures sum == Required(ids, byId) && largest == Largest(ids, byId)
  {
    sum, largest := 0, 0;
    for i := 0 to |ids|
      invariant sum == Required(ids[..i], byId) && largest == Largest(ids[..i], byId)
    {
      assert ids[..i + 1][..i] == ids[..i];
      var e := Estimate(byId[ids[i]]);
      sum := sum + e;
      if e > largest { largest := e; }
    }
    assert ids[..|ids|] == ids;
  }

  // ------------------------------------------------------- what a plan does

  lemma LoadElements(locals: seq<Model>, current: seq<string>)
    ensures forall id :: id in Loads(locals, current) <==> id in Ids(locals) && id !in TrimmedElements(current)
  {
    var missing := Missing(locals, TrimmedElements(current));
    SortElements(missing);
    MissingElements(locals, TrimmedElements(current));
  }

  lemma EjectElements(locals: seq<Model>, current: seq<string>)
    ensures forall id :: id in Ejects(locals, current) <==> id in current && TrimSpace(id) !in Ids(locals)
  {
    SortElements(Leftover(current, Ids(locals)));
    LeftoverElements(current, Ids(locals));
  }

  // Ejecting and then loading.
  function Reached(locals: seq<Model>, current: seq<string>): set<string> {
    Elements(current) - Elements(Ejects(locals, current)) + Elements(Loads(locals, current))
  }

  // Every listed model that answers to a local ID is listed under that very ID.
  ghost predicate ListedAsNamed(locals: seq<Model>, current: seq<string>) {
    forall x :: x in current && TrimSpace(x) in Ids(locals) ==> x in Ids(locals) && TrimSpace(x) in current
  }

  /**
   Carrying out the plan leaves exactly the local models loaded, if and only if the runtimes list every model
   they share with the manifest as the manifest names it; trimmed IDs always do.
   */
  lemma PlanReachesLocals(locals: seq<Model>, current: seq<string>)
    ensures Reached(locals, current) == Ids(locals) <==> ListedAsNamed(locals, current)
    ensures (forall x :: x in current ==> TrimSpace(x) == x) ==> Reached(locals, current) == Ids(locals)
  {
    LoadElements(locals, current);
    EjectElements(locals, current);
    var reached, ids := Reached(locals, current), Ids(locals);
    forall x
      ensures x in reached <==> (x in current && TrimSpace(x) in ids) || (x in ids && x !in TrimmedElements(current))
    {}
    if ListedAsNamed(locals, current) {
      forall x | x in ids ensures x in reached {
        if x in TrimmedElements(current) {
          var y :| y in current && TrimSpace(y) == x;
          TrimIdempotent(y);
        }
      }
      assert reached == ids;
    }
    if reached == ids { NamedFromReached(locals, current); }
  }

  lemma NamedFromReached(locals: seq<Model>, current: seq<string>)
    requires Reached(locals, current) == Ids(locals)
    ensures ListedAsNamed(locals, current)
  {
    LoadElements(locals, current);
    EjectElements(locals, current);
    forall x | x in current && TrimSpace(x) in Ids(locals) ensures x in Ids(locals) && TrimSpace(x) in current {
      assert x in Reached(locals, current);
      assert TrimSpace(x) in Reached(locals, current);
      assert TrimSpace(x) in TrimmedElements(current);
    }
  }

  /** Both lists are in order, and they share an ID only if the manifest repeats a listed ID with spaces around it. */
  lemma PlanListsInOrder(locals: seq<Model>, current: seq<string>)
    ensures Sorted(Ejects(locals, current)) && Sorted(Loads(locals, current))
    ensures Elements(Ejects(locals, current)) !! Elements(Loads(locals, current)) <==>
            forall x :: x in current && x in Ids(locals) ==> TrimSpace(x) in Ids(locals)
  {
    SortSorts(Leftover(current, Ids(locals)));
    SortSorts(Missing(locals, TrimmedElements(current)));
    LoadElements(locals, current);
    EjectElements(locals, current);
    var eject, load := Ejects(locals, current), Loads(locals, current);
    forall x | x in eject && x in load ensures x in current && x in Ids(locals) && TrimSpace(x) !in Ids(locals) {}
    forall x | x in current && x in Ids(locals) && TrimSpace(x) !in Ids(locals)
      ensures x in Elements(eject) && x in Elements(load)
    {
      if x in TrimmedElements(current) {
        var y :| y in current && TrimSpace(y) == x;
        TrimIdempotent(y);
      }
    }
  }

  // --------------------------------------------------- what a plan says

  function IdsOf(models: seq<Model>): (ids: seq<string>)
    ensures |ids| == |models| && forall i :: 0 <= i < |models| ==> ids[i] == models[i].modelId
  {
    seq(|models|, i requires 0 <= i < |models| => models[i].modelId)
  }

  lemma {:induction false} LocalsSelected(models: seq<Model>, machine: string, keep: nat -> bool, n: nat)
      returns (at: seq<nat>)
    requires n <= |models| && forall i: nat :: i < |models| ==>
               (keep(i) <==> models[i].source == "machine" && TrimSpace(models[i].machineId) == TrimSpace(machine))
    ensures Selects(models, n, keep, at, Locals(models[..n], machine))
  {
    if n == 0 {
      at := [];
      SelectsNone(models, keep);
    } else {
      at := LocalsSelected(models, machine, keep, n - 1);
      SelectsNext(models, n - 1, keep, at, Locals(models[..n - 1], machine));
      assert models[..n][..n - 1] == models[..n - 1];
      if keep(n - 1) { at := at + [n - 1]; }
    }
  }

  lemma {:induction false} MissingSelected(locals: seq<Model>, loaded: set<string>, keep: nat -> bool, n: nat)
      returns (at: seq<nat>)
    requires n <= |locals| && forall i: nat :: i < |locals| ==> (keep(i) <==> locals[i].modelId !in loaded)
    ensures Selects(IdsOf(locals), n, keep, at, Missing(locals[..n], loaded))
  {
    if n == 0 {
      at := [];
      SelectsNone(IdsOf(locals), keep);
    } else {
      at := MissingSelected(locals, loaded, keep, n - 1);
      SelectsNext(IdsOf(locals), n - 1, keep, at, Missing(locals[..n - 1], loaded));
      assert locals[..n][..n - 1] == locals[..n - 1];
      if keep(n - 1) { at := at + [n - 1]; }
    }
  }

  lemma {:induction false} LeftoverSelected(current: seq<string>, desired: set<string>, keep: nat -> bool, n: nat)
      returns (at: seq<nat>)
    requires n <= |current| && forall i: nat :: i < |current| ==> (keep(i) <==> TrimSpace(current[i]) !in desired)
    ensures Selects(current, n, keep, at, Leftover(current[..n], desired))
  {
    if n == 0 {
      at := [];
      SelectsNone(current, keep);
    } else {
      at := LeftoverSelected(current, desired, keep, n - 1);
      SelectsNext(current, n - 1, keep, at, Leftover(current[..n - 1], desired));
      assert current[..n][..n - 1] == current[..n - 1];
      if keep(n - 1) { at := at + [n - 1]; }
    }
  }

  // m is the last local model with its ID.
  ghost predicate LastNamed(locals: seq<Model>, id: string, m: Model) {
    exists i: nat :: i < |locals| && locals[i] == m && m.modelId == id
                     && forall j :: i < j < |locals| ==> locals[j].modelId != id
  }

  lemma LastNamedNext(front: seq<Model>, last: Model, id: string, m: Model)
    requires if last.modelId == id then m == last else LastNamed(front, id, m)
    ensures LastNamed(front + [last], id, m)
  {
    var all := front + [last];
    if last.modelId == id {
      assert all[|front|] == m;
    } else {
      var i: nat :| i < |front| && front[i] == m && m.modelId == id
                    && forall j :: i < j < |front| ==> front[j].modelId != id;
      assert all[i] == m && forall j :: i < j < |front| ==> all[j] == front[j];
    }
  }

  lemma {:induction false} ByIdIsLast(locals: seq<Model>, id: string)
    requires id in ById(locals)
    ensures LastNamed(locals, id, ById(locals)[id])
  {
    var front, last := locals[..|locals| - 1], locals[|locals| - 1];
    assert locals == front + [last];
    if last.modelId != id { ByIdIsLast(front, id); }
    LastNamedNext(front, last, id, ById(locals)[id]);
  }

  lemma {:induction false} ReclaimableIsTotal(ids: seq<string>, f: string -> int)
    requires forall id :: f(id) == EstimateVRAM(id, "", "", "", 0, false, "")
    ensures Reclaimable(ids) == Total(ids, f)
  {
    if ids != [] { ReclaimableIsTotal(ids[..|ids| - 1], f); }
  }

  // What a declared model is estimated at.
  ghost predicate Declares(f: string -> int, id: string, m: Model) {
    f(id) == EstimateVRAM(m.modelId, m.runtime, m.parameterCount, m.quantization, m.context, m.isMoe, m.activeParams)
  }

  lemma {:induction false} RequiredIsTotal(ids: seq<string>, byId: map<string, Model>, f: string -> int)
    requires forall id :: id in ids ==> id in byId && Declares(f, id, byId[id])
    ensures Required(ids, byId) == Total(ids, f)
  {
    if ids != [] { RequiredIsTotal(ids[..|ids| - 1], byId, f); }
  }

  /**
   The lists of a plan. The local models are those of the manifest with this machine's trimmed ID as their source;
   loaded are the IDs no listed model has when trimmed, ejected the listed models whose trimmed ID no local model
   has, both sorted with all repetitions.
   */
  lemma PlanListsMean(models: seq<Model>, machine: string, current: seq<string>, snap: Snapshot, ours: nat -> bool,
                      misses: nat -> bool, leaves: nat -> bool)
      returns (locals: seq<Model>, at: seq<nat>, missing: seq<string>, from: seq<nat>, left: seq<string>, out: seq<nat>)
    requires forall i: nat :: i < |models| ==>
               (ours(i) <==> models[i].source == "machine" && TrimSpace(models[i].machineId) == TrimSpace(machine))
    requires forall i: nat :: i < |Locals(models, machine)| ==>
               (misses(i) <==> forall x :: x in current ==> TrimSpace(x) != Locals(models, machine)[i].modelId)
    requires forall i: nat :: i < |current| ==>
               (leaves(i) <==> forall m :: m in Locals(models, machine) ==> m.modelId != TrimSpace(current[i]))
    ensures locals == Locals(models, machine) && Selects(models, |models|, ours, at, locals)
    ensures var p := PlanFor(locals, current, snap);
            && Selects(IdsOf(locals), |locals|, misses, from, missing) && Sorted(p.load)
            && multiset(p.load) == multiset(missing)
            && Selects(current, |current|, leaves, out, left) && Sorted(p.eject) && multiset(p.eject) == multiset(left)
  {
    locals := Locals(models, machine);
    at := LocalsSelected(models, machine, ours, |models|);
    assert models[..|models|] == models;
    missing, left := Missing(locals, TrimmedElements(current)), Leftover(current, Ids(locals));
    from := MissingSelected(locals, TrimmedElements(current), misses, |locals|);
    assert locals[..|locals|] == locals;
    out := LeftoverSelected(current, Ids(locals), leaves, |current|);
    assert current[..|current|] == current;
    SortSorts(missing);
    SortSorts(left);
  }

  lemma LargestMeans(load: seq<string>, byId: map<string, Model>, coming: string -> int, room: int)
    requires forall id :: id in load ==> id in byId && Declares(coming, id, byId[id])
    ensures Largest(load, byId) > 0 && Largest(load, byId) <= room
            <==> load != [] && forall id :: id in load ==> coming(id) <= room
  {
    assert forall id :: id in load ==> coming(id) == Estimate(byId[id]);
  }

  // All that goes and all that comes is charged, and free memory and the verdicts follow from that and the headroom.
  ghost predicate Budgeted(p: Plan, snap: Snapshot, headroom: int, going: string -> int, coming: string -> int) {
    var gone := Total(p.eject, going);
    && p.projectedUsed == Max(0, snap.used - gone + Total(p.load, coming))
    && p.projectedFree == Max(0, snap.total - p.projectedUsed)
    && p.headroom == headroom
    && (p.fits <==> !snap.known || p.projectedUsed + p.headroom <= snap.total)
    && (p.sequential <==>
          && snap.known && !p.fits && p.load != []
          && forall id :: id in p.load ==> coming(id) <= snap.total - p.headroom - snap.used + gone)
  }

  lemma WeighedMeans(eject: seq<string>, load: seq<string>, largest: int, headroom: int, snap: Snapshot,
                     going: string -> int, coming: string -> int)
    requires var room := snap.total - headroom - snap.used + Total(eject, going);
             largest > 0 && largest <= room <==> load != [] && forall id :: id in load ==> coming(id) <= room
    ensures Budgeted(Weighed(eject, load, Total(eject, going), Total(load, coming), largest, headroom, snap), snap,
                     headroom, going, coming)
  {
  }

  lemma LoadsDeclared(locals: seq<Model>, current: seq<string>, coming: string -> int)
    requires forall id, m :: LastNamed(locals, id, m) ==> Declares(coming, id, m)
    ensures forall id :: id in Loads(locals, current) ==> Declares(coming, id, ById(locals)[id])
  {
    forall id | id in Loads(locals, current) ensures Declares(coming, id, ById(locals)[id]) { ByIdIsLast(locals, id); }
  }

  /**
   The memory of a plan. What goes is estimated by its ID alone, what comes by the last declaration of its ID.
   */
  lemma PlanMemoryMeans(locals: seq<Model>, current: seq<string>, snap: Snapshot, going: string -> int,
                        coming: string -> int)
    requires forall id :: going(id) == EstimateVRAM(id, "", "", "", 0, false, "")
    requires forall id, m :: LastNamed(locals, id, m) ==> Declares(coming, id, m)
    ensures Budgeted(PlanFor(locals, current, snap), snap, HeadroomMB(snap.total, snap.unified), going, coming)
  {
    var eject, load, byId := Ejects(locals, current), Loads(locals, current), ById(locals);
    LoadsDeclared(locals, current, coming);
    ReclaimableIsTotal(eject, going);
    RequiredIsTotal(load, byId, coming);
    var headroom := HeadroomMB(snap.total, snap.unified);
    LargestMeans(load, byId, coming, snap.total - headroom - snap.used + Total(eject, going));
    WeighedMeans(eject, load, Largest(load, byId), headroom, snap, going, coming);
  }

  // ------------------------------------------------------- memory of a plan

  /** With known memory, a plan that fits leaves the headroom free. */
  lemma FittingLeavesHeadroom(locals: seq<Model>, current: seq<string>, snap: Snapshot)
    requires snap.known
    ensures var p := PlanFor(locals, current, snap);
            p.fits <==> snap.total - p.projectedUsed >= p.headroom
    ensures var p := PlanFor(locals, current, snap);
            p.fits ==> p.projectedFree == snap.total - p.projectedUsed >= p.headroom
  {
  }

  /**
   A sequential plan is one that does not fit at once, but whose every load would fit on its own; with the
   headroom no larger than the memory, that takes at least two loads.
   */
  lemma SequentialMeans(locals: seq<Model>, current: seq<string>, snap: Snapshot)
    ensures var p := PlanFor(locals, current, snap);
            p.sequential ==>
              && snap.known && !p.fits
              && (forall id :: id in p.load ==>
                    snap.used - Reclaimable(p.eject) + Estimate(ById(locals)[id]) + p.headroom <= snap.total)
              && (p.headroom <= snap.total ==> |p.load| >= 2)
  {
    var p := PlanFor(locals, current, snap);
    if |p.load| == 1 {
      var byId := ById(locals);
      assert p.load == [p.load[0]];
      assert p.load[..0] == [];
      assert Required(p.load, byId) == Estimate(byId[p.load[0]]);
    }
  }

  // ------------------------------------------------------------- preflight

  datatype Issue =
    | TooLarge
    | EjectFailed(id: string)
    | LoadFailed(id: string)
    | NoEndpoint(id: string)
    | ProbeFailed(id: string)

  datatype Preflight = Preflight(ready: bool, issues: seq<Issue>, loaded: seq<string>, plan: Option<Plan>)

  predicate ContainsId(items: seq<string>, target: string) {
    exists x :: x in items && TrimSpace(x) == TrimSpace(target)
  }

  method ContainsModelId(items: seq<string>, target: string) returns (found: bool)
    ensures found <==> ContainsId(items, target)
  {
    for i := 0 to |items|
      invariant forall x :: x in items[..i] ==> TrimSpace(x) != TrimSpace(target)
    {
      if TrimSpace(items[i]) == TrimSpace(target) { return true; }
      assert items[..i + 1] == items[..i] + [items[i]];
    }
    assert items[..|items|] == items;
    return false;
  }

  // The local IDs preflight finds no listed model for.
  function Absent(locals: seq<Model>, current: seq<string>): seq<string> {
    if locals == [] then [] else
    var front, id := Absent(locals[..|locals| - 1], current), locals[|locals| - 1].modelId;
    if ContainsId(current, id) then front else front + [id]
  }

  // How the k-th local model's start and endpoint probe turn out.
  datatype World = World(starts: nat -> bool, answers: nat -> bool)

  predicate Up(locals: seq<Model>, current: seq<string>, w: World, k: nat)
    requires k < |locals|
  {
    ContainsId(current, locals[k].modelId) || w.starts(k)
  }

  predicate Healthy(locals: seq<Model>, w: World, k: nat)
    requires k < |locals|
  {
    !Blank(locals[k].endpoint) && w.answers(k)
  }

  ghost predicate AllUp(locals: seq<Model>, current: seq<string>, w: World, n: nat)
    requires n <= |locals|
  {
    n == 0 || (AllUp(locals, current, w, n - 1) && Up(locals, current, w, n - 1))
  }

  ghost predicate AllHealthy(locals: seq<Model>, w: World, n: nat)
    requires n <= |locals|
  {
    n == 0 || (AllHealthy(locals, w, n - 1) && Healthy(locals, w, n - 1))
  }

  // The IDs preflight reports as loaded, after n models.
  ghost function LoadedIds(locals: seq<Model>, current: seq<string>, w: World, n: nat): seq<string>
    requires n <= |locals|
  {
    if n == 0 then [] else
    LoadedIds(locals, current, w, n - 1) + if Up(locals, current, w, n - 1) then [locals[n - 1].modelId] else []
  }

  /** What readiness promises. */
  lemma {:induction false} ReadyMeans(locals: seq<Model>, current: seq<string>, w: World, n: nat)
    requires n <= |locals| && AllUp(locals, current, w, n) && AllHealthy(locals, w, n)
    ensures forall k: nat :: k < n ==> locals[k].modelId in LoadedIds(locals, current, w, n)
    ensures forall k: nat :: k < n ==> !Blank(locals[k].endpoint) && w.answers(k)
  {
    if n > 0 { ReadyMeans(locals, current, w, n - 1); }
  }

  lemma NoteIssue(issues: seq<Issue>, i: Issue)
    ensures OnlyEjects(issues + [i]) <==> OnlyEjects(issues) && i.EjectFailed?
  {
    assert (issues + [i])[..|issues|] == issues;
  }

  ghost predicate OnlyEjects(issues: seq<Issue>) {
    issues == [] || (OnlyEjects(issues[..|issues| - 1]) && issues[|issues| - 1].EjectFailed?)
  }

  // The eject loop; a failure is noted and nothing more. Cancellation is seen before each step.
  method EjectAll(ids: seq<string>) returns (stops: seq<string>, issues: seq<Issue>, cancelled: bool)
    ensures stops <= ids && (!cancelled ==> stops == ids) && OnlyEjects(issues)
  {
    stops, issues, cancelled := [], [], false;
    for i := 0 to |ids|
      invariant stops == ids[..i] && OnlyEjects(issues)
    {
      var done: bool := *;
      if done { cancelled := true; return; }
      assert ids[..i + 1] == ids[..i] + [ids[i]];
      stops := stops + [ids[i]];
      var ok: bool := *;
      if !ok {
        NoteIssue(issues, EjectFailed(ids[i]));
        issues := issues + [EjectFailed(ids[i])];
      }
    }
    assert ids[..|ids|] == ids;
  }

  // The load loop.
  method LoadAll(locals: seq<Model>, current: seq<string>, w: World)
    returns (attempts: seq<string>, loaded: seq<string>, issues: seq<Issue>, ready: bool)
    ensures attempts == Absent(locals, current) && loaded == LoadedIds(locals, current, w, |locals|)
    ensures ready <==> AllUp(locals, current, w, |locals|)
    ensures ready <==> OnlyEjects(issues)
  {
    attempts, loaded, issues, ready := [], [], [], true;
    for i := 0 to |locals|
      invariant attempts == Absent(locals[..i], current) && loaded == LoadedIds(locals, current, w, i)
      invariant ready <==> AllUp(locals, current, w, i)
      invariant ready <==> OnlyEjects(issues)
    {
      var id := locals[i].modelId;
      assert locals[..i + 1][..i] == locals[..i];
      var present := ContainsModelId(current, id);
      if present {
        loaded := loaded + [id];
        continue;
      }
      attempts := attempts + [id];
      if !w.starts(i) {
        NoteIssue(issues, LoadFailed(id));
        ready, issues := false, issues + [LoadFailed(id)];
        continue;
      }
      loaded := loaded + [id];
    }
    assert locals[..|locals|] == locals;
  }

  // The probe loop. Cancellation is seen before each step.
  method ProbeAll(locals: seq<Model>, w: World) returns (issues: seq<Issue>, ready: bool, cancelled: bool)
    ensures !cancelled ==> (ready <==> AllHealthy(locals, w, |locals|))
    ensures ready <==> OnlyEjects(issues)
  {
    issues, ready, cancelled := [], true, false;
    for i := 0 to |locals|
      invariant ready <==> AllHealthy(locals, w, i)
      invariant ready <==> OnlyEjects(issues)
    {
      var done: bool := *;
      if done { cancelled := true; return; }
      if Blank(locals[i].endpoint) {
        NoteIssue(issues, NoEndpoint(locals[i].modelId));
        ready, issues := false, issues + [NoEndpoint(locals[i].modelId)];
        continue;
      }
      if !w.answers(i) {
        NoteIssue(issues, ProbeFailed(locals[i].modelId));
        ready, issues := false, issues + [ProbeFailed(locals[i].modelId)];
      }
    }
  }

  // What preflight may have done by the time it ends; without a result it was cancelled.
  ghost predicate Outcome(locals: seq<Model>, current: seq<string>, plan: Plan, w: World,
                          result: Option<Preflight>, stops: seq<string>, attempts: seq<string>) {
    && stops <= plan.eject
    && (attempts == [] || attempts == Absent(locals, current))
    && (result.Some? ==>
          && result.value.plan == Some(plan) && stops == plan.eject && attempts == Absent(locals, current)
          && result.value.loaded == LoadedIds(locals, current, w, |locals|)
          && (result.value.ready <==> AllUp(locals, current, w, |locals|) && AllHealthy(locals, w, |locals|))
          && (result.value.ready <==> OnlyEjects(result.value.issues)))
  }

  /**
   Preflight. A plan that does not fit is not begun; otherwise, unless cancelled, exactly the planned models are
   stopped, exactly the absent ones attempted, and the result is ready if and only if all of them came up healthy.
   */
  method RunPreflight(models: seq<Model>, machine: string, current: seq<string>, snap: Snapshot, w: World)
    returns (result: Option<Preflight>, stops: seq<string>, attempts: seq<string>)
    ensures var locals := Locals(models, machine);
            var plan := PlanFor(locals, current, snap);
            if locals == [] then
              result == Some(Preflight(true, [], [], None)) && stops == [] && attempts == []
            else if !plan.fits then
              result == Some(Preflight(false, [TooLarge], [], Some(plan))) && stops == [] && attempts == []
            else Outcome(locals, current, plan, w, result, stops, attempts)
  {
    stops, attempts := [], [];
    var locals := LocalManifestModels(models, machine);
    if |locals| == 0 { return Some(Preflight(true, [], [], None)), [], []; }
    var plan := PlanModelLoading(models, machine, current, snap);
    if !plan.fits { return Some(Preflight(false, [TooLarge], [], Some(plan))), [], []; }
    result, stops, attempts := CarryOut(locals, current, plan, w);
  }

  method CarryOut(locals: seq<Model>, current: seq<string>, plan: Plan, w: World)
    returns (result: Option<Preflight>, stops: seq<string>, attempts: seq<string>)
    ensures Outcome(locals, current, plan, w, result, stops, attempts)
  {
    attempts := [];
    var ejectIssues, loadIssues, probeIssues, cancelled, loaded, up, healthy;
    stops, ejectIssues, cancelled := EjectAll(plan.eject);
    if cancelled { return None, stops, []; }
    attempts, loaded, loadIssues, up := LoadAll(locals, current, w);
    probeIssues, healthy, cancelled := ProbeAll(locals, w);
    if cancelled { return None, stops, attempts; }
    IssuesSplit(ejectIssues, loadIssues);
    IssuesSplit(ejectIssues + loadIssues, probeIssues);
    result := Some(Preflight(up && healthy, ejectIssues + loadIssues + probeIssues, loaded, Some(plan)));
  }

  lemma {:induction false} IssuesSplit(a: seq<Issue>, b: seq<Issue>)
    ensures OnlyEjects(a + b) <==> OnlyEjects(a) && OnlyEjects(b)
  {
    if b == [] {
      assert a + b == a;
    } else {
      IssuesSplit(a, b[..|b| - 1]);
      assert (a + b)[..|a + b| - 1] == a + b[..|b| - 1];
    }
  }

  // --------------------------------------------- what a preflight means

  lemma {:induction false} AbsentSelected(locals: seq<Model>, current: seq<string>, absent: nat -> bool, n: nat)
      returns (at: seq<nat>)
    requires n <= |locals| && forall i: nat :: i < |locals| ==>
               (absent(i) <==> forall x :: x in current ==> TrimSpace(x) != TrimSpace(locals[i].modelId))
    ensures Selects(IdsOf(locals), n, absent, at, Absent(locals[..n], current))
  {
    if n == 0 {
      at := [];
      SelectsNone(IdsOf(locals), absent);
    } else {
      at := AbsentSelected(locals, current, absent, n - 1);
      SelectsNext(IdsOf(locals), n - 1, absent, at, Absent(locals[..n - 1], current));
      assert locals[..n][..n - 1] == locals[..n - 1];
      if absent(n - 1) { at := at + [n - 1]; }
    }
  }

  lemma {:induction false} LoadedSelected(locals: seq<Model>, current: seq<string>, w: World, up: nat -> bool, n: nat)
      returns (at: seq<nat>)
    requires n <= |locals| && forall i: nat :: i < |locals| ==> (up(i) <==> Up(locals, current, w, i))
    ensures Selects(IdsOf(locals), n, up, at, LoadedIds(locals, current, w, n))
  {
    if n == 0 {
      at := [];
      SelectsNone(IdsOf(locals), up);
    } else {
      at := LoadedSelected(locals, current, w, up, n - 1);
      var ids, front := IdsOf(locals), LoadedIds(locals, current, w, n - 1);
      SelectsNext(ids, n - 1, up, at, front);
      assert LoadedIds(locals, current, w, n) == if up(n - 1) then front + [ids[n - 1]] else front;
      if up(n - 1) { at := at + [n - 1]; }
    }
  }

  lemma {:induction false} UpThroughout(locals: seq<Model>, current: seq<string>, w: World, n: nat)
    requires n <= |locals|
    ensures AllUp(locals, current, w, n) <==> forall i: nat :: i < n ==> Up(locals, current, w, i)
  {
    if n > 0 { UpThroughout(locals, current, w, n - 1); }
  }

  lemma {:induction false} HealthyThroughout(locals: seq<Model>, w: World, n: nat)
    requires n <= |locals|
    ensures AllHealthy(locals, w, n) <==> forall i: nat :: i < n ==> Healthy(locals, w, i)
  {
    if n > 0 { HealthyThroughout(locals, w, n - 1); }
  }

  /**
   A preflight that was carried out has stopped the planned models and tried to start, in the manifest's order, each
   local model that no listed model answers for; loaded are the models listed or started, and it is ready if and only
   if that is all of them and each has a non-blank endpoint that answered.
   */
  lemma OutcomeMeans(locals: seq<Model>, current: seq<string>, plan: Plan, w: World, result: Preflight,
                     stops: seq<string>, attempts: seq<string>, absent: nat -> bool, up: nat -> bool)
      returns (tried: seq<nat>, at: seq<nat>)
    requires Outcome(locals, current, plan, w, Some(result), stops, attempts)
    requires forall i: nat :: i < |locals| ==>
               (absent(i) <==> forall x :: x in current ==> TrimSpace(x) != TrimSpace(locals[i].modelId))
               && (up(i) <==> !absent(i) || w.starts(i))
    ensures stops == plan.eject && Selects(IdsOf(locals), |locals|, absent, tried, attempts)
    ensures Selects(IdsOf(locals), |locals|, up, at, result.loaded)
    ensures result.ready <==>
              forall i: nat :: i < |locals| ==> up(i) && TrimSpace(locals[i].endpoint) != "" && w.answers(i)
  {
    forall i: nat | i < |locals| ensures up(i) <==> Up(locals, current, w, i) {
      assert absent(i) <==> !ContainsId(current, locals[i].modelId);
    }
    tried := AbsentSelected(locals, current, absent, |locals|);
    assert locals[..|locals|] == locals;
    at := LoadedSelected(locals, current, w, up, |locals|);
    UpThroughout(locals, current, w, |locals|);
    HealthyThroughout(locals, w, |locals|);
    forall i: nat | i < |locals|
      ensures Healthy(locals, w, i) <==> TrimSpace(locals[i].endpoint) != "" && w.answers(i)
    {
      HealthyMeans(locals, w, i);
    }
  }

  lemma HealthyMeans(locals: seq<Model>, w: World, i: nat)
    requires i < |locals|
    ensures Healthy(locals, w, i) <==> TrimSpace(locals[i].endpoint) != "" && w.answers(i)
  {
  }

  // ------------------------------------------------- plan against preflight

  // Preflight compares trimmed IDs, the planner the manifest's raw one.
  ghost predicate Misread(m: Model, current: seq<string>) {
    TrimSpace(m.modelId) != m.modelId && TrimSpace(m.modelId) in TrimmedElements(current)
  }

  lemma ContainsMeans(current: seq<string>, m: Model)
    ensures ContainsId(current, m.modelId) <==> m.modelId in TrimmedElements(current) || Misread(m, current)
  {
    if m.modelId in TrimmedElements(current) {
      var x :| x in current && TrimSpace(x) == m.modelId;
      TrimIdempotent(x);
    }
    if ContainsId(current, m.modelId) {
      var x :| x in current && TrimSpace(x) == TrimSpace(m.modelId);
      assert TrimSpace(x) in TrimmedElements(current);
    }
    if TrimSpace(m.modelId) in TrimmedElements(current) {
      var x :| x in current && TrimSpace(x) == TrimSpace(m.modelId);
    }
  }

  lemma MisreadIsMissing(current: seq<string>, m: Model)
    requires Misread(m, current)
    ensures m.modelId !in TrimmedElements(current)
  {
    if m.modelId in TrimmedElements(current) {
      var x :| x in current && TrimSpace(x) == m.modelId;
      TrimIdempotent(x);
    }
  }

  lemma {:induction false} AbsentAgainstMissing(locals: seq<Model>, current: seq<string>)
    ensures |Absent(locals, current)| <= |Missing(locals, TrimmedElements(current))|
    ensures |Absent(locals, current)| == |Missing(locals, TrimmedElements(current))|
            <==> forall m :: m in locals ==> !Misread(m, current)
    ensures (forall m :: m in locals ==> !Misread(m, current)) ==>
              Absent(locals, current) == Missing(locals, TrimmedElements(current))
  {
    if locals != [] {
      var front, m := locals[..|locals| - 1], locals[|locals| - 1];
      assert locals == front + [m];
      AbsentAgainstMissing(front, current);
      ContainsMeans(current, m);
      if Misread(m, current) { MisreadIsMissing(current, m); }
      assert (forall x :: x in locals ==> !Misread(x, current)) <==>
             (forall x :: x in front ==> !Misread(x, current)) && !Misread(m, current);
    }
  }

  /** Preflight attempts exactly the planned loads, unless the manifest pads the ID of a model that is listed. */
  lemma AttemptsAreThePlan(locals: seq<Model>, current: seq<string>)
    ensures multiset(Absent(locals, current)) == multiset(Loads(locals, current))
            <==> forall m :: m in locals ==> !Misread(m, current)
  {
    var missing := Missing(locals, TrimmedElements(current));
    AbsentAgainstMissing(locals, current);
    SortSorts(missing);
    assert |multiset(Absent(locals, current))| == |Absent(locals, current)|;
    assert |multiset(missing)| == |missing|;
  }

  /**
   What goes wrong then: unless the manifest also names it unpadded, every listed copy of the model is ejected,
   no attempt is made to load it, and it is reported as loaded all the same.
   */
  lemma MisreadIsLost(locals: seq<Model>, current: seq<string>, m: Model)
    requires m in locals && Misread(m, current) && TrimSpace(m.modelId) !in Ids(locals)
    ensures forall x :: x in current && TrimSpace(x) == TrimSpace(m.modelId) ==> x in Ejects(locals, current)
    ensures m.modelId !in Absent(locals, current) && ContainsId(current, m.modelId)
  {
    EjectElements(locals, current);
    ContainsMeans(current, m);
    AbsentElements(locals, current);
  }

  lemma OneModel(m: Model, x: string)
    requires TrimSpace(x) == x != m.modelId && TrimSpace(m.modelId) == x
    ensures Misread(m, [x]) && Ejects([m], [x]) == [x] && Loads([m], [x]) == [m.modelId] && Absent([m], [x]) == []
  {
    var ms, listed := [m], [x];
    assert ms[..0] == [] && listed[..0] == [];
    assert x in listed && TrimmedElements(listed) == {x} && Ids(ms) == {m.modelId};
    assert Leftover(listed[..0], Ids(ms)) == [] && Missing(ms[..0], TrimmedElements(listed)) == [];
    assert x !in Ids(ms) && m.modelId !in TrimmedElements(listed);
    assert Leftover(listed, Ids(ms)) == [] + [x] == [x];
    assert Missing(ms, TrimmedElements(listed)) == [] + [m.modelId] == [m.modelId];
    SortOne(x);
    SortOne(m.modelId);
    assert ContainsId(listed, m.modelId);
  }

  /** A manifest that pads the ID of a loaded model: the plan loads and ejects, preflight only ejects. */
  lemma PaddedIdIsMisread()
    ensures var m := Model("machine", "here", " a", "", "", "", 0, false, "", "");
            && Locals([m], "here") == [m] && Misread(m, ["a"])
            && Ejects([m], ["a"]) == ["a"] && Loads([m], ["a"]) == [" a"] && Absent([m], ["a"]) == []
  {
    var m := Model("machine", "here", " a", "", "", "", 0, false, "", "");
    assert Trimmed("a") && TrimSpace("a") == "a" && " a" == " " + "a";
    TrimPadded("a");
    OneModel(m, "a");
    assert [m][..0] == [] && Locals([], "here") == [];
  }

  lemma SortOne(x: string)
    ensures Sort([x]) == [x]
  {
    assert [x][1..] == [];
  }

  lemma {:induction false} AbsentElements(locals: seq<Model>, current: seq<string>)
    ensures forall id :: id in Absent(locals, current) ==> !ContainsId(current, id)
  {
    if locals != [] { AbsentElements(locals[..|locals| - 1], current); }
  }
}
