/**
 Desired-state reconciliation: a check-in first ensures runtimes and prepares models, then
 removes stale models from every installed runtime. Driver calls may fail.
 */
module Reconcile {
  import opened Basics
  import opened GoStrings
  import opened Sorting

  const LLAMACPP := "llamacpp"
  const VLLM := "vllm"
  const OLLAMA := "ollama"

  function Norm(runtime: string): string { ToLower(TrimSpace(runtime)) }

  datatype Target = Target(modelId: string, runtime: string)

  datatype Desired = Desired(runtimes: seq<string>, targets: seq<Target>, models: seq<string>)

  /** Per registered runtime: is it installed, and which models does it hold. */
  datatype State = State(installed: set<string>, models: map<string, set<string>>)

  // The registry is the driver table; its names are their own normal forms, so looking one up by its own name finds it.
  predicate Valid(registry: set<string>, s: State) {
    s.models.Keys == registry && s.installed <= registry
  }

  // --------------------------------------------------------------- enforcing

  // What enforceDesiredConfig asks the runtime manager for, in order.
  datatype Intent =
    | Ensure(runtime: string)
    | PrepareAt(runtime: string, id: string)
    | Route(id: string)                       // no runtime named: the manager picks one

  function TargetIntent(t: Target): Intent {
    if Blank(t.runtime) then Route(t.modelId) else PrepareAt(t.runtime, t.modelId)
  }

  function TargetIntents(eject: bool, targets: seq<Target>): seq<Intent> {
    if targets == [] then [] else
    var front, t := targets[..|targets| - 1], targets[|targets| - 1];
    if eject && Norm(t.runtime) == LLAMACPP then TargetIntents(eject, front)
    else TargetIntents(eject, front) + [TargetIntent(t)]
  }

  function ModelIntents(models: seq<string>, handled: set<string>): seq<Intent> {
    if models == [] then [] else
    var front, m := models[..|models| - 1], models[|models| - 1];
    if m in handled then ModelIntents(front, handled) else ModelIntents(front, handled) + [Route(m)]
  }

  function Handled(targets: seq<Target>): set<string> { set t | t in targets :: t.modelId }

  function EnsureIntents(runtimes: seq<string>): seq<Intent> {
    if runtimes == [] then [] else EnsureIntents(runtimes[..|runtimes| - 1]) + [Ensure(runtimes[|runtimes| - 1])]
  }

  function Intents(eject: bool, d: Desired): seq<Intent> {
    EnsureIntents(d.runtimes) + TargetIntents(eject, d.targets) + ModelIntents(d.models, Handled(d.targets))
  }

  // The first installed runtime in name order.
  ghost predicate IsFirst(installed: set<string>, r: string) {
    r in installed && forall x :: x in installed ==> LexLe(r, x)
  }

  lemma {:induction false} FirstExists(installed: set<string>)
    requires installed != {}
    ensures exists r :: IsFirst(installed, r)
  {
    var x :| x in installed;
    var rest := installed - {x};
    LexTotal(x, x);
    if rest == {} {
      assert installed == {x};
      assert IsFirst(installed, x);
    } else {
      FirstExists(rest);
      var r :| IsFirst(rest, r);
      LexTotal(r, x);
      LexTotal(r, r);
      if LexLe(r, x) {
        assert IsFirst(installed, r);
      } else {
        forall y | y in installed ensures LexLe(x, y) {
          if y != x {
            assert y in rest;
            LexTransitive(x, r, y);
          }
        }
        assert IsFirst(installed, x);
      }
    }
  }

  ghost function First(installed: set<string>): (r: string)
    requires installed != {}
    ensures IsFirst(installed, r)
  {
    FirstExists(installed);
    var r :| IsFirst(installed, r);
    r
  }

  lemma FirstUnique(installed: set<string>, r: string)
    requires IsFirst(installed, r)
    ensures r == First(installed)
  {
    LexTotal(r, First(installed));
  }

  // The runtime that takes a model nobody was asked to install a runtime for.
  ghost function Preferred(installed: set<string>, id: string): Option<string> {
    if '/' in id && VLLM in installed then Some(VLLM)
    else if ':' in id && OLLAMA in installed then Some(OLLAMA)
    else if installed == {} then None
    else Some(First(installed))
  }

  // The runtime that serves an intent, if every driver call succeeds.
  ghost function Serves(registry: set<string>, installed: set<string>, i: Intent): Option<string> {
    match i
    case Ensure(r) => if Norm(r) in registry then Some(Norm(r)) else None
    case PrepareAt(r, _) => if Norm(r) in registry then Some(Norm(r)) else None
    case Route(id) =>
      var t := TrimSpace(id);
      if t == "" then None
      else if '/' in t then (if VLLM in registry then Some(VLLM) else None)
      else if ':' in t && OLLAMA in registry then Some(OLLAMA)
      else Preferred(installed, t)
  }

  // The model it prepares there.
  function Prepares(i: Intent): set<string> {
    match i
    case Ensure(_) => {}
    case PrepareAt(_, id) => {id}
    case Route(id) => {TrimSpace(id)}
  }

  ghost function Apply(registry: set<string>, s: State, i: Intent): State
    requires Valid(registry, s)
  {
    match Serves(registry, s.installed, i)
    case None => s
    case Some(r) => State(s.installed + {r}, s.models[r := s.models[r] + Prepares(i)])
  }

  ghost function ApplyAll(registry: set<string>, s: State, intents: seq<Intent>): (s': State)
    requires Valid(registry, s)
    ensures Valid(registry, s')
    decreases |intents|
  {
    if intents == [] then s
    else Apply(registry, ApplyAll(registry, s, intents[..|intents| - 1]), intents[|intents| - 1])
  }

  ghost function Enforced(registry: set<string>, s: State, eject: bool, d: Desired): (s': State)
    requires Valid(registry, s)
    ensures Valid(registry, s')
  {
    ApplyAll(registry, s, Intents(eject, d))
  }

  // -------------------------------------------------------------- reconciling

  function DesiredIds(d: Desired): set<string> {
    (set t | t in d.targets && !Blank(t.modelId) :: TrimSpace(t.modelId))
    + (set m | m in d.models && !Blank(m) :: TrimSpace(m))
  }

  predicate Stale(d: Desired, eject: bool, protected: set<string>, runtime: string, id: string) {
    id !in protected && ((eject && runtime == LLAMACPP) || id !in DesiredIds(d))
  }

  // The drivers list raw IDs, the check and the removal use trimmed ones: only a model listed under its
  // trimmed, non-blank ID can go.
  predicate Removable(d: Desired, eject: bool, protected: set<string>, runtime: string, id: string) {
    TrimSpace(id) == id && id != "" && Stale(d, eject, protected, runtime, id)
  }

  function Kept(d: Desired, eject: bool, protected: set<string>, runtime: string, ids: set<string>): set<string> {
    set m | m in ids && !Removable(d, eject, protected, runtime, m)
  }

  function Reconciled(s: State, d: Desired, eject: bool, protected: set<string>): State {
    s.(models := map r | r in s.models ::
                   if r in s.installed then Kept(d, eject, protected, r, s.models[r]) else s.models[r])
  }

  ghost function Cycle(registry: set<string>, s: State, eject: bool, d: Desired, protected: set<string>): (s': State)
    requires Valid(registry, s)
    ensures Valid(registry, s')
  {
    Reconciled(Enforced(registry, s, eject, d), d, eject, protected)
  }

  // --------------------------------------------------------------- the cycle

  lemma {:induction false} InstalledGrows(registry: set<string>, s: State, intents: seq<Intent>)
    requires Valid(registry, s)
    ensures s.installed <= ApplyAll(registry, s, intents).installed
    decreases |intents|
  {
    if intents != [] { InstalledGrows(registry, s, intents[..|intents| - 1]); }
  }

  // With nothing newly installed, enforcing adds the same models whatever the runtimes hold.
  ghost predicate Adds(registry: set<string>, installed: set<string>, intents: seq<Intent>, r: string, m: string) {
    exists i :: i in intents && Serves(registry, installed, i) == Some(r) && m in Prepares(i)
  }

  lemma {:induction false} EnforcedModels(registry: set<string>, s: State, intents: seq<Intent>, r: string, m: string)
    requires Valid(registry, s) && ApplyAll(registry, s, intents).installed == s.installed && r in registry
    ensures m in ApplyAll(registry, s, intents).models[r]
            <==> m in s.models[r] || Adds(registry, s.installed, intents, r, m)
    decreases |intents|
  {
    if intents != [] {
      var front, i := intents[..|intents| - 1], intents[|intents| - 1];
      InstalledGrows(registry, s, front);
      var mid := ApplyAll(registry, s, front);
      assert mid.installed <= Apply(registry, mid, i).installed;
      EnforcedModels(registry, s, front, r, m);
      assert intents == front + [i];
      assert forall x :: x in intents <==> x in front || x == i;
    }
  }

  lemma {:induction false} InstalledStays(registry: set<string>, s: State, s1: State, intents: seq<Intent>)
    requires Valid(registry, s) && Valid(registry, s1) && s1.installed == s.installed
    requires ApplyAll(registry, s, intents).installed == s.installed
    ensures ApplyAll(registry, s1, intents).installed == s.installed
    decreases |intents|
  {
    if intents != [] {
      var front, i := intents[..|intents| - 1], intents[|intents| - 1];
      InstalledGrows(registry, s, front);
      assert ApplyAll(registry, s, front).installed <= ApplyAll(registry, s, intents).installed;
      InstalledStays(registry, s, s1, front);
    }
  }

  // The runtime that serves an intent ends up installed.
  lemma ServedIsInstalled(registry: set<string>, s: State, i: Intent, r: string)
    requires Valid(registry, s) && Serves(registry, s.installed, i) == Some(r)
    ensures r in Apply(registry, s, i).installed
  {
  }

  lemma ApplyGrows(registry: set<string>, s: State, i: Intent)
    requires Valid(registry, s)
    ensures s.installed <= Apply(registry, s, i).installed
  {
  }

  lemma PrefixInstalls(registry: set<string>, s: State, front: seq<Intent>, i: Intent)
    requires Valid(registry, s)
    requires Apply(registry, ApplyAll(registry, s, front), i).installed == s.installed
    ensures ApplyAll(registry, s, front).installed == s.installed
  {
    InstalledGrows(registry, s, front);
    ApplyGrows(registry, ApplyAll(registry, s, front), i);
  }

  lemma {:induction false} AddsInstalled(registry: set<string>, s: State, intents: seq<Intent>, i: Intent, r: string)
    requires Valid(registry, s) && ApplyAll(registry, s, intents).installed == s.installed
    requires i in intents && Serves(registry, s.installed, i) == Some(r)
    ensures r in s.installed
    decreases |intents|
  {
    var front, last := intents[..|intents| - 1], intents[|intents| - 1];
    PrefixInstalls(registry, s, front, last);
    if i in front {
      AddsInstalled(registry, s, front, i, r);
    } else {
      ServedIsInstalled(registry, ApplyAll(registry, s, front), i, r);
    }
  }

  // What the runtimes hold after one cycle that installs nothing new.
  lemma CycleModels(registry: set<string>, s: State, eject: bool, d: Desired, protected: set<string>, r: string,
                    m: string)
    requires Valid(registry, s) && Enforced(registry, s, eject, d).installed == s.installed && r in registry
    ensures Cycle(registry, s, eject, d, protected).installed == s.installed
    ensures m in Cycle(registry, s, eject, d, protected).models[r] <==>
            && (m in s.models[r] || Adds(registry, s.installed, Intents(eject, d), r, m))
            && !(r in s.installed && Removable(d, eject, protected, r, m))
  {
    EnforcedModels(registry, s, Intents(eject, d), r, m);
  }

  /** With successful driver calls and no runtime newly installed, a second cycle ends where the first did. */
  lemma CycleIsIdempotent(registry: set<string>, s: State, eject: bool, d: Desired, protected: set<string>)
    requires Valid(registry, s) && Enforced(registry, s, eject, d).installed == s.installed
    ensures var s1 := Cycle(registry, s, eject, d, protected);
            Cycle(registry, s1, eject, d, protected) == s1
  {
    var s1 := Cycle(registry, s, eject, d, protected);
    InstalledStays(registry, s, s1, Intents(eject, d));
    var s2 := Cycle(registry, s1, eject, d, protected);
    forall r, m | r in registry ensures m in s2.models[r] <==> m in s1.models[r] {
      CycleModels(registry, s, eject, d, protected, r, m);
      CycleModels(registry, s1, eject, d, protected, r, m);
    }
    SameModels(registry, s1, s2);
  }

  lemma SameModels(registry: set<string>, s: State, t: State)
    requires Valid(registry, s) && Valid(registry, t) && s.installed == t.installed
    requires forall r, m :: r in registry ==> (m in t.models[r] <==> m in s.models[r])
    ensures t == s
  {
    forall r | r in registry ensures t.models[r] == s.models[r] {}
    assert t.models == s.models;
  }

  // Whatever is installed, this intent goes to r.
  ghost predicate Fixed(registry: set<string>, i: Intent, r: string) {
    forall installed :: Serves(registry, installed, i) == Some(r)
  }

  // An intent goes to a runtime of its own or to one that is there.
  lemma ServesFixedOrInstalled(registry: set<string>, installed: set<string>, i: Intent)
    ensures var r := Serves(registry, installed, i);
            r.None? || r.value in installed || Fixed(registry, i, r.value)
  {
  }

  lemma {:induction false} FixedIsInstalled(registry: set<string>, s: State, intents: seq<Intent>, i: Intent, r: string)
    requires Valid(registry, s) && i in intents && Fixed(registry, i, r)
    ensures r in ApplyAll(registry, s, intents).installed
    decreases |intents|
  {
    var front, last := intents[..|intents| - 1], intents[|intents| - 1];
    var mid := ApplyAll(registry, s, front);
    if i in front {
      FixedIsInstalled(registry, s, front, i, r);
      ApplyGrows(registry, mid, last);
    } else {
      assert Serves(registry, mid.installed, i) == Some(r);
      ServedIsInstalled(registry, mid, i, r);
    }
  }

  lemma {:induction false} InstallsNothing(registry: set<string>, s: State, intents: seq<Intent>)
    requires Valid(registry, s)
    requires forall i :: i in intents ==>
               Serves(registry, s.installed, i).None? || Serves(registry, s.installed, i).value in s.installed
    ensures ApplyAll(registry, s, intents).installed == s.installed
    decreases |intents|
  {
    if intents != [] {
      var front, last := intents[..|intents| - 1], intents[|intents| - 1];
      InstallsNothing(registry, s, front);
      assert last in intents;
    }
  }

  // One enforcement installs everything a second would ask for.
  lemma SecondInstallsNothing(registry: set<string>, s: State, t: State, intents: seq<Intent>)
    requires Valid(registry, s) && Valid(registry, t) && t.installed == ApplyAll(registry, s, intents).installed
    ensures ApplyAll(registry, t, intents).installed == t.installed
  {
    forall i | i in intents
      ensures Serves(registry, t.installed, i).None? || Serves(registry, t.installed, i).value in t.installed
    {
      ServesFixedOrInstalled(registry, t.installed, i);
      var r := Serves(registry, t.installed, i);
      if r.Some? && Fixed(registry, i, r.value) { FixedIsInstalled(registry, s, intents, i, r.value); }
    }
    InstallsNothing(registry, t, intents);
  }

  /** From every state, with successful driver calls, two cycles reach one that a third leaves alone. */
  lemma TwoCyclesSettle(registry: set<string>, s: State, eject: bool, d: Desired, protected: set<string>)
    requires Valid(registry, s)
    ensures var s2 := Cycle(registry, Cycle(registry, s, eject, d, protected), eject, d, protected);
            Cycle(registry, s2, eject, d, protected) == s2
  {
    var s1 := Cycle(registry, s, eject, d, protected);
    SecondInstallsNothing(registry, s, s1, Intents(eject, d));
    CycleIsIdempotent(registry, s1, eject, d, protected);
  }

  // ------------------------------------------------------------- quiescence

  /** Some model without a runtime of its own lands on llamacpp, which is being ejected, and nothing protects it. */
  ghost predicate Churns(registry: set<string>, installed: set<string>, eject: bool, d: Desired,
                         protected: set<string>) {
    eject && exists i :: i in Intents(eject, d) && i.Route? && TrimSpace(i.id) !in protected
                         && Serves(registry, installed, i) == Some(LLAMACPP)
  }

  // Where the intents come from.
  lemma {:induction false} TargetIntentsAre(eject: bool, targets: seq<Target>, i: Intent)
    ensures i in TargetIntents(eject, targets) <==>
              exists t :: t in targets && !(eject && Norm(t.runtime) == "llamacpp")
                          && i == if TrimSpace(t.runtime) == "" then Route(t.modelId)
                                  else PrepareAt(t.runtime, t.modelId)
  {
    if targets != [] {
      var front, t := targets[..|targets| - 1], targets[|targets| - 1];
      assert targets == front + [t];
      assert forall x :: x in targets <==> x in front || x == t;
      TargetIntentsAre(eject, front, i);
    }
  }

  lemma {:induction false} ModelIntentsAre(models: seq<string>, handled: set<string>, i: Intent)
    ensures i in ModelIntents(models, handled) <==> i.Route? && i.id in models && i.id !in handled
  {
    if models != [] {
      var front, m := models[..|models| - 1], models[|models| - 1];
      assert models == front + [m];
      ModelIntentsAre(front, handled, i);
    }
  }

  lemma {:induction false} EnsureIntentsAre(runtimes: seq<string>, i: Intent)
    ensures i in EnsureIntents(runtimes) <==> i.Ensure? && i.runtime in runtimes
  {
    if runtimes != [] {
      var front, r := runtimes[..|runtimes| - 1], runtimes[|runtimes| - 1];
      assert runtimes == front + [r];
      EnsureIntentsAre(front, i);
    }
  }

  /**
   What is asked for: every runtime; every target on its runtime, unless that is llamacpp under ejection; with no
   place named, the targets without a runtime and the plain models no target names.
   */
  lemma IntentsAre(eject: bool, d: Desired, i: Intent)
    ensures i in Intents(eject, d) <==>
              match i
              case Ensure(r) => r in d.runtimes
              case PrepareAt(r, id) =>
                Target(id, r) in d.targets && TrimSpace(r) != "" && !(eject && Norm(r) == "llamacpp")
              case Route(id) =>
                || (exists t :: t in d.targets && t.modelId == id && TrimSpace(t.runtime) == "")
                || (id in d.models && forall t :: t in d.targets ==> t.modelId != id)
  {
    EnsureIntentsAre(d.runtimes, i);
    TargetIntentsAre(eject, d.targets, i);
    ModelIntentsAre(d.models, Handled(d.targets), i);
    if i.Route? {
      if t :| t in d.targets && t.modelId == i.id && TrimSpace(t.runtime) == "" { BlankIsNoName(t.runtime); }
    }
  }

  lemma BlankIsNoName(r: string)
    requires TrimSpace(r) == ""
    ensures Norm(r) != "llamacpp"
  {
    assert Norm(r) == "";
  }

  // Whatever is installed or held stays so.
  lemma {:induction false} EnforcingGrows(registry: set<string>, s: State, intents: seq<Intent>)
    requires Valid(registry, s)
    ensures var t := ApplyAll(registry, s, intents);
            s.installed <= t.installed && forall r :: r in s.models ==> s.models[r] <= t.models[r]
    decreases |intents|
  {
    if intents != [] { EnforcingGrows(registry, s, intents[..|intents| - 1]); }
  }

  // What one intent has brought about, with these runtimes installed at the time.
  ghost predicate Met(registry: set<string>, installed: set<string>, i: Intent, t: State)
    requires Valid(registry, t)
  {
    match i
    case Ensure(r) => Norm(r) in registry ==> Norm(r) in t.installed
    case PrepareAt(r, id) => Norm(r) in registry ==> Norm(r) in t.installed && id in t.models[Norm(r)]
    case Route(raw) =>
      var id := TrimSpace(raw);
      if id == "" then true
      else if '/' in id then "vllm" in registry ==> "vllm" in t.installed && id in t.models["vllm"]
      else if ':' in id && "ollama" in registry then "ollama" in t.installed && id in t.models["ollama"]
      else installed != {} ==>
             exists r :: r in t.installed && id in t.models[r] && forall x :: x in installed ==> LexLe(r, x)
  }

  lemma ApplyMeets(registry: set<string>, s: State, i: Intent)
    requires Valid(registry, s)
    ensures Met(registry, s.installed, i, Apply(registry, s, i))
  {
    if i.Route? && TrimSpace(i.id) != "" && '/' !in TrimSpace(i.id) && !(':' in TrimSpace(i.id) && OLLAMA in registry) {
      var t := Apply(registry, s, i);
      if s.installed != {} {
        var r := First(s.installed);
        assert r in t.installed && TrimSpace(i.id) in t.models[r];
      }
    }
  }

  lemma MetStays(registry: set<string>, installed: set<string>, fewer: set<string>, i: Intent, t: State, u: State)
    requires Valid(registry, t) && Valid(registry, u) && Met(registry, installed, i, t) && fewer <= installed
    requires t.installed <= u.installed && forall r :: r in t.models ==> t.models[r] <= u.models[r]
    ensures Met(registry, fewer, i, u)
  {
    if i.Route? && fewer != {} {
      var id := TrimSpace(i.id);
      if id != "" && '/' !in id && !(':' in id && "ollama" in registry) {
        var r :| r in t.installed && id in t.models[r] && forall x :: x in installed ==> LexLe(r, x);
        assert r in u.installed && id in u.models[r];
      }
    }
  }

  lemma {:induction false} AllMet(registry: set<string>, s: State, intents: seq<Intent>, i: Intent)
    requires Valid(registry, s) && i in intents
    ensures Met(registry, s.installed, i, ApplyAll(registry, s, intents))
    decreases |intents|
  {
    var front, last := intents[..|intents| - 1], intents[|intents| - 1];
    assert intents == front + [last];
    var mid := ApplyAll(registry, s, front);
    var all := ApplyAll(registry, s, intents);
    EnforcingGrows(registry, s, front);
    if i in front {
      AllMet(registry, s, front, i);
      MetStays(registry, s.installed, s.installed, i, mid, all);
    } else {
      ApplyMeets(registry, mid, last);
      MetStays(registry, mid.installed, s.installed, last, all, all);
    }
  }

  /** Enforcing with no failing driver call brings about everything asked for. */
  lemma EnforcingDoesAll(registry: set<string>, s: State, eject: bool, d: Desired, i: Intent)
    requires Valid(registry, s) && i in Intents(eject, d)
    ensures Met(registry, s.installed, i, Enforced(registry, s, eject, d))
  {
    AllMet(registry, s, Intents(eject, d), i);
  }

  // This intent is what put m on r.
  ghost predicate Brings(registry: set<string>, installed: set<string>, i: Intent, r: string, m: string) {
    match i
    case Ensure(_) => false
    case PrepareAt(x, id) => Norm(x) == r && id == m
    case Route(raw) =>
      && TrimSpace(raw) == m && m != ""
      && if '/' in m then r == "vllm"
         else if ':' in m && "ollama" in registry then r == "ollama"
         else forall x :: x in installed ==> LexLe(r, x)
  }

  // This intent is what had r installed.
  ghost predicate Installs(registry: set<string>, i: Intent, r: string) {
    match i
    case Ensure(x) => Norm(x) == r
    case PrepareAt(x, _) => Norm(x) == r
    case Route(raw) =>
      var id := TrimSpace(raw);
      ('/' in id && r == "vllm") || ('/' !in id && ':' in id && r == "ollama")
  }

  lemma ApplyBrings(registry: set<string>, s: State, i: Intent)
    requires Valid(registry, s)
    ensures var t := Apply(registry, s, i);
            && (forall r, m :: r in registry && m in t.models[r] && m !in s.models[r] ==>
                  Brings(registry, s.installed, i, r, m))
            && (forall r :: r in t.installed && r !in s.installed ==> Installs(registry, i, r))
  {
  }

  lemma {:induction false} AllBrought(registry: set<string>, s: State, intents: seq<Intent>)
    requires Valid(registry, s)
    ensures var t := ApplyAll(registry, s, intents);
            && (forall r, m :: r in registry && m in t.models[r] && m !in s.models[r] ==>
                  exists i :: i in intents && Brings(registry, s.installed, i, r, m))
            && (forall r :: r in t.installed && r !in s.installed ==>
                  exists i :: i in intents && Installs(registry, i, r))
    decreases |intents|
  {
    if intents != [] {
      var front, last := intents[..|intents| - 1], intents[|intents| - 1];
      assert intents == front + [last];
      var mid := ApplyAll(registry, s, front);
      var t := ApplyAll(registry, s, intents);
      AllBrought(registry, s, front);
      EnforcingGrows(registry, s, front);
      ApplyBrings(registry, mid, last);
      forall r, m | r in registry && m in t.models[r] && m !in s.models[r]
        ensures exists i :: i in intents && Brings(registry, s.installed, i, r, m)
      {
        if m in mid.models[r] {
          var i :| i in front && Brings(registry, s.installed, i, r, m);
          assert i in intents;
        } else {
          assert last in intents && Brings(registry, s.installed, last, r, m);
        }
      }
      forall r | r in t.installed && r !in s.installed ensures exists i :: i in intents && Installs(registry, i, r) {
        if r in mid.installed {
          var i :| i in front && Installs(registry, i, r);
          assert i in intents;
        } else {
          assert last in intents && Installs(registry, last, r);
        }
      }
    }
  }

  /** And nothing else: what a runtime holds only now, and every newly installed runtime, was asked for. */
  lemma EnforcingDoesOnly(registry: set<string>, s: State, eject: bool, d: Desired)
    requires Valid(registry, s)
    ensures var t := Enforced(registry, s, eject, d);
            && s.installed <= t.installed && (forall r :: r in registry ==> s.models[r] <= t.models[r])
            && (forall r, m :: r in registry && m in t.models[r] && m !in s.models[r] ==>
                  exists i :: i in Intents(eject, d) && Brings(registry, s.installed, i, r, m))
            && (forall r :: r in t.installed && r !in s.installed ==>
                  exists i :: i in Intents(eject, d) && Installs(registry, i, r))
  {
    AllBrought(registry, s, Intents(eject, d));
    EnforcingGrows(registry, s, Intents(eject, d));
  }

  // Whatever enforcing adds is desired, and it is asked of llamacpp under ejection only for want of a runtime.
  lemma AddedIsDesired(eject: bool, d: Desired, i: Intent, m: string)
    requires i in Intents(eject, d) && m in Prepares(i) && TrimSpace(m) == m && m != ""
    ensures m in DesiredIds(d) && (i.PrepareAt? ==> !(eject && Norm(i.runtime) == LLAMACPP))
    ensures !i.Ensure?
  {
    IntentsAre(eject, d, i);
  }

  // The additions the same cycle takes away again are exactly the churning ones.
  lemma AddedThenRemoved(registry: set<string>, installed: set<string>, eject: bool, d: Desired, protected: set<string>,
                         i: Intent, r: string, m: string)
    requires i in Intents(eject, d) && Serves(registry, installed, i) == Some(r) && m in Prepares(i)
    ensures Removable(d, eject, protected, r, m) <==> i.Route? && eject && r == LLAMACPP && m !in protected
  {
    if i.Route? { TrimIdempotent(i.id); }
    if TrimSpace(m) == m && m != "" { AddedIsDesired(eject, d, i, m); }
  }

  /**
   Once a cycle has run, enforcing again touches nothing, unless an unprotected model without a
   runtime of its own routes to llamacpp under ejection: such a model is prepared and removed in
   every cycle, for ever.
   */
  lemma QuietIffNoChurn(registry: set<string>, s: State, eject: bool, d: Desired, protected: set<string>)
    requires Valid(registry, s) && Enforced(registry, s, eject, d).installed == s.installed
    ensures var s1 := Cycle(registry, s, eject, d, protected);
            Enforced(registry, s1, eject, d) == s1 <==> !Churns(registry, s.installed, eject, d, protected)
  {
    var intents := Intents(eject, d);
    var s1 := Cycle(registry, s, eject, d, protected);
    InstalledStays(registry, s, s1, intents);
    if Churns(registry, s.installed, eject, d, protected) {
      ChurnIsSeen(registry, s, eject, d, protected);
    } else {
      forall r, m | r in registry ensures m in Enforced(registry, s1, eject, d).models[r] <==> m in s1.models[r] {
        EnforcedModels(registry, s1, intents, r, m);
        if Adds(registry, s.installed, intents, r, m) { QuietAddition(registry, s, eject, d, protected, r, m); }
      }
      SameModels(registry, s1, Enforced(registry, s1, eject, d));
    }
  }

  lemma ChurnIsSeen(registry: set<string>, s: State, eject: bool, d: Desired, protected: set<string>)
    requires Valid(registry, s) && Enforced(registry, s, eject, d).installed == s.installed
    requires Churns(registry, s.installed, eject, d, protected)
    ensures var s1 := Cycle(registry, s, eject, d, protected);
            Enforced(registry, s1, eject, d) != s1
  {
    var intents := Intents(eject, d);
    var s1 := Cycle(registry, s, eject, d, protected);
    InstalledStays(registry, s, s1, intents);
    var i :| && i in intents && i.Route? && TrimSpace(i.id) !in protected
             && Serves(registry, s.installed, i) == Some(LLAMACPP);
    var m := TrimSpace(i.id);
    assert Adds(registry, s.installed, intents, LLAMACPP, m);
    AddsInstalled(registry, s, intents, i, LLAMACPP);
    AddedThenRemoved(registry, s.installed, eject, d, protected, i, LLAMACPP, m);
    CycleModels(registry, s, eject, d, protected, LLAMACPP, m);
    EnforcedModels(registry, s1, intents, LLAMACPP, m);
  }

  lemma QuietAddition(registry: set<string>, s: State, eject: bool, d: Desired, protected: set<string>, r: string,
                      m: string)
    requires Valid(registry, s) && Enforced(registry, s, eject, d).installed == s.installed && r in registry
    requires !Churns(registry, s.installed, eject, d, protected)
    requires Adds(registry, s.installed, Intents(eject, d), r, m)
    ensures m in Cycle(registry, s, eject, d, protected).models[r]
  {
    var i :| i in Intents(eject, d) && Serves(registry, s.installed, i) == Some(r) && m in Prepares(i);
    AddedThenRemoved(registry, s.installed, eject, d, protected, i, r, m);
    CycleModels(registry, s, eject, d, protected, r, m);
  }

  lemma PlainRoute(registry: set<string>, runtime: string, id: string)
    requires Trimmed(id) && id != "" && '/' !in id && ':' !in id
    ensures Serves(registry, {runtime}, Route(id)) == Some(runtime) && TrimSpace(id) == id
  {
    assert First({runtime}) in {runtime};
  }

  lemma OnlyModel(eject: bool, id: string)
    ensures Intents(eject, Desired([], [], [id])) == [Route(id)]
  {
    var targets: seq<Target> := [];
    var models := [id];
    assert Handled(targets) == {};
    assert models[..0] == [] && models[|models| - 1] == id;
    assert ModelIntents(models, Handled(targets)) == ModelIntents(models[..0], Handled(targets)) + [Route(id)];
    assert TargetIntents(eject, targets) == [] && EnsureIntents([]) == [];
  }

  function LlamacppOnly(registry: set<string>): State { State({LLAMACPP}, map r | r in registry :: {}) }

  lemma PlainIdChurns(registry: set<string>, id: string)
    requires LLAMACPP in registry && Trimmed(id) && id != "" && '/' !in id && ':' !in id
    ensures var s, d := LlamacppOnly(registry), Desired([], [], [id]);
            && Enforced(registry, s, true, d).installed == s.installed
            && Churns(registry, s.installed, true, d, {})
  {
    var s, d := LlamacppOnly(registry), Desired([], [], [id]);
    OnlyModel(true, id);
    PlainRoute(registry, LLAMACPP, id);
    assert Route(id) in Intents(true, d);
    InstallsNothing(registry, s, Intents(true, d));
  }

  /** With any drivers known, a machine that has llamacpp only and is asked for one model by name alone churns. */
  lemma ChurnExists(registry: set<string>)
    requires LLAMACPP in registry
    ensures var s, d := LlamacppOnly(registry), Desired([], [], ["m"]);
            && Valid(registry, s) && Enforced(registry, s, true, d).installed == s.installed
            && Churns(registry, s.installed, true, d, {})
  {
    PlainIdChurns(registry, "m");
  }
}
