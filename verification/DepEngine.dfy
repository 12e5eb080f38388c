/** Installing and removing components in one prefix: what every operation keeps of the recorded dependencies and of
    the DLL overrides, over any run of installs and removals that may stop midway. */
module DepEngine {
  import opened Wrappers
  import opened DepState
  import DepPlanner

  /** The records of the state file and the DLL overrides in the prefix's registry. */
  datatype State = State(installed: Installed, overrides: set<string>)

  /** How the steps of one component's recipe went: the overrides they wrote, those among them that the recipe
      sets by name, the rest of the changes, and which provided ids could not be recorded after it. */
  datatype Attempt = Attempt(ok: bool, written: set<string>, named: set<string>, delta: Record, stubFails: set<string>)
  {
    function Overrides(): set<string> { written + named }

    // The change to record: an override that was there before is not this component's, unless its recipe names it.
    function Recorded(before: set<string>): Record {
      delta.(dllOverrides := (Overrides() - before) + named)
    }
  }

  // ------------------------------------------------------------------ specification

  function WithStubs(installed: Installed, provided: seq<string>, fails: set<string>): Installed
    decreases |provided|
  {
    if provided == [] then installed
    else WithStubs(
      if provided[0] in fails then installed else Upserted(installed, provided[0], {}, EMPTY),
      provided[1..], fails)
  }

  function AfterProfile(catalog: Catalog, s: State, id: string, a: Attempt): State
    requires id in catalog.profiles
  {
    var profile := catalog.profiles[id];
    var installed :=
      if !a.ok then s.installed
      else WithStubs(Upserted(s.installed, id, Elements(profile.dependencies), a.Recorded(s.overrides)),
                     profile.provided, a.stubFails);
    State(installed, s.overrides + a.Overrides())
  }

  /** The state after the plan, or after its first component whose recipe fails. */
  function RunPlan(catalog: Catalog, s: State, plan: seq<string>, attempt: string -> Attempt): State
    requires forall x :: x in plan ==> x in catalog.profiles
    decreases |plan|
  {
    if plan == [] then s
    else
      var next := AfterProfile(catalog, s, plan[0], attempt(plan[0]));
      if attempt(plan[0]).ok then RunPlan(catalog, next, plan[1..], attempt) else next
  }

  /** Where a removal stops: before the overrides are taken out, after that, or not at all. */
  datatype Stop = BeforeOverrides | AfterOverrides | Completes

  function Stubs(catalog: Catalog, installed: Installed, id: string, fails: set<string>): set<string> {
    set p | p in catalog.Provided(id) && p in installed && installed[p].OwnsNothing() && p !in fails
  }

  predicate Removable(catalog: Catalog, s: State, id: string) {
    id in s.installed && Dependents(catalog, s.installed, id) == {}
  }

  function AfterUninstall(catalog: Catalog, s: State, id: string, stop: Stop, fails: set<string>): State {
    if !Removable(catalog, s, id) || stop.BeforeOverrides? then s
    else State(
      if stop.AfterOverrides? then s.installed
      else s.installed - {id} - Stubs(catalog, s.installed, id, fails),
      s.overrides - OverridesToRemove(catalog, s.installed, id))
  }

  ghost predicate PlanFor(catalog: Catalog, installed: Installed, id: string, plan: seq<string>) {
    var graph := catalog.Dependencies();
    && DepPlanner.Plannable(graph, id)
    && DepPlanner.PrerequisitesFirst(graph, installed.Keys, plan)
    && forall x :: x in plan <==> x == id || (x !in installed && DepPlanner.Below(graph, id, x))
  }

  datatype Event =
    | Install(id: string, plan: seq<string>, attempt: string -> Attempt)
    | Uninstall(id: string, stop: Stop, stubFails: set<string>)

  ghost predicate Possible(catalog: Catalog, s: State, event: Event) {
    event.Install? ==>
      PlanFor(catalog, s.installed, event.id, event.plan) && forall x :: x in event.plan ==> x in catalog.profiles
  }

  ghost function After(catalog: Catalog, s: State, event: Event): State
    requires Possible(catalog, s, event)
  {
    match event
    case Install(_, plan, attempt) => RunPlan(catalog, s, plan, attempt)
    case Uninstall(id, stop, fails) => AfterUninstall(catalog, s, id, stop, fails)
  }

  ghost predicate IsStep(catalog: Catalog, s: State, event: Event, t: State) {
    Possible(catalog, s, event) && t == After(catalog, s, event)
  }

  ghost predicate StepAt(catalog: Catalog, states: seq<State>, events: seq<Event>, i: nat)
    requires |states| == |events| + 1 && i < |events|
  {
    IsStep(catalog, states[i], events[i], states[i + 1])
  }

  ghost predicate IsRun(catalog: Catalog, states: seq<State>, events: seq<Event>) {
    |states| == |events| + 1 && forall i :: 0 <= i < |events| ==> StepAt(catalog, states, events, i)
  }

  lemma PlannedHasProfile(catalog: Catalog, installed: Installed, id: string, plan: seq<string>)
    requires PlanFor(catalog, installed, id, plan)
    ensures forall x :: x in plan ==> x in catalog.profiles
  {
    forall x | x in plan
      ensures x in catalog.profiles
    {
      assert DepPlanner.Reaches(catalog.Dependencies(), id, x);
      assert DepPlanner.Acceptable(catalog.Dependencies(), x);
    }
  }

  lemma PlanTurn(catalog: Catalog, s: State, plan: seq<string>, k: nat, attempt: string -> Attempt)
    requires k < |plan| && forall x :: x in plan[k..] ==> x in catalog.profiles
    ensures plan[k] in catalog.profiles && forall x :: x in plan[k + 1..] ==> x in catalog.profiles
    ensures
      var next := AfterProfile(catalog, s, plan[k], attempt(plan[k]));
      RunPlan(catalog, s, plan[k..], attempt) ==
        if attempt(plan[k]).ok then RunPlan(catalog, next, plan[k + 1..], attempt) else next
  {
    assert plan[k..] == [plan[k]] + plan[k + 1..];
    assert plan[k..][1..] == plan[k + 1..];
  }

  // ------------------------------------------------------------- what the records then say

  predicate Has(installed: Installed, id: string) { id in installed }

  /** What a component's record has after more changes were recorded: in each list what it had and what is new. */
  ghost predicate Gained(before: Installed, after: Installed, id: string, delta: Record) {
    && id in after
    && (forall f :: f in after[id].createdFiles <==>
          (Has(before, id) && f in before[id].createdFiles) || f in delta.createdFiles)
    && (forall f :: f in after[id].dllOverrides <==>
          (Has(before, id) && f in before[id].dllOverrides) || f in delta.dllOverrides)
    && (forall f :: f in after[id].registeredDlls <==>
          (Has(before, id) && f in before[id].registeredDlls) || f in delta.registeredDlls)
    && (forall f :: f in after[id].winetricksVerbs <==>
          (Has(before, id) && f in before[id].winetricksVerbs) || f in delta.winetricksVerbs)
    && (forall f :: f in after[id].uninstallEntries <==>
          (Has(before, id) && f in before[id].uninstallEntries) || f in delta.uninstallEntries)
    && (after[id].touchedExistingFiles <==>
          (Has(before, id) && before[id].touchedExistingFiles) || delta.touchedExistingFiles)
  }

  // Every other record is as it was.
  ghost predicate OthersStay(before: Installed, after: Installed, id: string) {
    forall x :: x != id ==> (x in after <==> x in before) && (x in after ==> after[x] == before[x])
  }

  // The record names nothing a removal would take back.
  predicate NothingToTake(r: Record) {
    r.createdFiles == {} && r.dllOverrides == {} && r.registeredDlls == {} && r.uninstallEntries == {}
  }

  /** An installed component that depends on id, or that id provides and that changed files of the prefix without owning
      anything. */
  ghost predicate Needs(catalog: Catalog, installed: Installed, x: string, id: string) {
    && x in installed && x != id
    && (id in installed[x].dependencies ||
        (id in catalog.profiles && x in catalog.profiles[id].provided &&
         installed[x].touchedExistingFiles && NothingToTake(installed[x])))
  }

  /** The override is one the record names; or, when the component runs winetricks verbs and the record names none, one
      that those verbs are known to set. */
  ghost predicate SetBy(catalog: Catalog, installed: Installed, x: string, dll: string) {
    && x in installed
    && if x in catalog.profiles && catalog.profiles[x].verbs != {} && installed[x].winetricksVerbs == {}
       then exists verb :: verb in catalog.profiles[x].verbs && dll in catalog.knownOverrides(verb)
       else dll in installed[x].dllOverrides
  }

  /** What a completed removal leaves: every record but the component's and those of provided ids that own nothing and
      changed nothing; every override but those that it alone set. */
  ghost predicate TakenOut(catalog: Catalog, s: State, id: string, fails: set<string>, t: State) {
    && (forall x :: x in t.installed <==>
          && x in s.installed && x != id
          && !(id in catalog.profiles && x in catalog.profiles[id].provided && x !in fails &&
               !s.installed[x].touchedExistingFiles && NothingToTake(s.installed[x])))
    && (forall x :: x in t.installed ==> t.installed[x] == s.installed[x])
    && forall dll :: dll in t.overrides <==>
         dll in s.overrides &&
         !(SetBy(catalog, s.installed, id, dll) && forall x :: x != id ==> !SetBy(catalog, s.installed, x, dll))
  }

  lemma DependentsNeed(catalog: Catalog, installed: Installed, id: string)
    ensures Dependents(catalog, installed, id) != {} <==> exists x :: Needs(catalog, installed, x, id)
  {
    forall x
      ensures x in Dependents(catalog, installed, id) <==> Needs(catalog, installed, x, id)
    {
    }
    if x :| Needs(catalog, installed, x, id) {
      assert x in Dependents(catalog, installed, id);
    }
  }

  lemma OverridesTaken(catalog: Catalog, installed: Installed, id: string, dll: string)
    ensures dll in OverridesToRemove(catalog, installed, id) <==>
      SetBy(catalog, installed, id, dll) && forall x :: x != id ==> !SetBy(catalog, installed, x, dll)
  {
    forall x | x in installed
      ensures dll in SetOverrides(catalog, x, installed[x]) <==> SetBy(catalog, installed, x, dll)
    {
    }
  }

  lemma UninstallTakesOut(catalog: Catalog, s: State, id: string, fails: set<string>)
    requires Removable(catalog, s, id)
    ensures TakenOut(catalog, s, id, fails, AfterUninstall(catalog, s, id, Completes, fails))
  {
    forall dll
      ensures dll in OverridesToRemove(catalog, s.installed, id) <==>
        SetBy(catalog, s.installed, id, dll) && forall x :: x != id ==> !SetBy(catalog, s.installed, x, dll)
    {
      OverridesTaken(catalog, s.installed, id, dll);
    }
  }

  // ------------------------------------------------------------------------ the code

  class Prefix {
    var installed: Installed
    var overrides: set<string>

    function Now(): State
      reads this
    {
      State(installed, overrides)
    }

    constructor (installed: Installed, overrides: set<string>)
      ensures Now() == State(installed, overrides)
    {
      this.installed, this.overrides := installed, overrides;
    }

    method UpsertInstalledDep(id: string, dependencies: set<string>, delta: Record)
      modifies this`installed
      ensures installed == Upserted(old(installed), id, dependencies, delta)
      ensures id in installed && installed[id].dependencies == dependencies
      ensures Gained(old(installed), installed, id, delta) && OthersStay(old(installed), installed, id)
    {
      var entry := if id in installed then installed[id] else EMPTY;
      entry := entry.Merged(dependencies, delta);
      installed := installed[id := entry];
    }

    method RemoveInstalledDep(id: string)
      modifies this`installed
      ensures installed == old(installed) - {id}
    {
      installed := installed - {id};
    }

    method RunProfile(catalog: Catalog, id: string, a: Attempt)
      requires id in catalog.profiles
      modifies this
      ensures Now() == AfterProfile(catalog, old(Now()), id, a)
    {
      var profile := catalog.profiles[id];
      var before := overrides;
      overrides := overrides + a.Overrides();
      if !a.ok {
        return;
      }
      UpsertInstalledDep(id, Elements(profile.dependencies), a.Recorded(before));
      ghost var target := WithStubs(installed, profile.provided, a.stubFails);
      for k := 0 to |profile.provided|
        invariant overrides == old(overrides) + a.Overrides()
        invariant WithStubs(installed, profile.provided[k..], a.stubFails) == target
      {
        assert profile.provided[k..][1..] == profile.provided[k + 1..];
        if profile.provided[k] !in a.stubFails {
          UpsertInstalledDep(profile.provided[k], {}, EMPTY);
        }
      }
    }

    /** Installs what the planner lists, in its order, until a recipe fails; a refused plan changes nothing. */
    method InstallDep(catalog: Catalog, id: string, attempt: string -> Attempt)
      returns (r: Result<bool, DepPlanner.PlanError>, ghost plan: seq<string>)
      modifies this
      ensures r.Ok? <==> DepPlanner.Plannable(catalog.Dependencies(), id)
      ensures r.Err? ==> Now() == old(Now())
      ensures r.Ok? ==> IsStep(catalog, old(Now()), Install(id, plan, attempt), Now())
      ensures r.Ok? ==> (r.value <==> forall x :: x in plan ==> attempt(x).ok)
    {
      var planned := DepPlanner.BuildInstallPlan(catalog.Dependencies(), installed.Keys, id);
      if planned.Err? {
        return Err(planned.error), [];
      }
      plan := planned.value;
      PlannedHasProfile(catalog, installed, id, plan);
      var done := RunProfiles(catalog, planned.value, attempt);
      r := Ok(done);
    }

    method RunProfiles(catalog: Catalog, profiles: seq<string>, attempt: string -> Attempt) returns (done: bool)
      requires forall x :: x in profiles ==> x in catalog.profiles
      modifies this
      ensures Now() == RunPlan(catalog, old(Now()), profiles, attempt)
      ensures done <==> forall x :: x in profiles ==> attempt(x).ok
    {
      for k := 0 to |profiles|
        invariant forall x :: x in profiles[..k] ==> attempt(x).ok
        invariant forall x :: x in profiles[k..] ==> x in catalog.profiles
        invariant RunPlan(catalog, Now(), profiles[k..], attempt) == RunPlan(catalog, old(Now()), profiles, attempt)
      {
        PlanTurn(catalog, Now(), profiles, k, attempt);
        assert profiles[..k + 1] == profiles[..k] + [profiles[k]];
        RunProfile(catalog, profiles[k], attempt(profiles[k]));
        if !attempt(profiles[k]).ok {
          return false;
        }
      }
      assert profiles[..|profiles|] == profiles;
      return true;
    }

    /** Removes a component nothing installed needs, with what is its own. */
    method UninstallDep(catalog: Catalog, id: string, stop: Stop, stubFails: set<string>)
      returns (refused: bool)
      modifies this
      ensures refused <==> id in old(installed) && Dependents(catalog, old(installed), id) != {}
      ensures refused <==> id in old(installed) && exists x :: Needs(catalog, old(installed), x, id)
      ensures IsStep(catalog, old(Now()), Uninstall(id, stop, stubFails), Now())
      ensures id in old(installed) && !refused && stop.Completes? ==>
        TakenOut(catalog, old(Now()), id, stubFails, Now())
    {
      DependentsNeed(catalog, installed, id);
      if Removable(catalog, Now(), id) {
        UninstallTakesOut(catalog, Now(), id, stubFails);
      }
      if id !in installed {
        return false;
      }
      if Dependents(catalog, installed, id) != {} {
        return true;
      }
      if stop.BeforeOverrides? {
        return false;
      }
      var start := installed;
      overrides := overrides - OverridesToRemove(catalog, installed, id);
      if stop.AfterOverrides? {
        return false;
      }
      RemoveInstalledDep(id);
      var provided := catalog.Provided(id);
      for k := 0 to |provided|
        invariant overrides == old(overrides) - OverridesToRemove(catalog, start, id)
        invariant installed == start - {id} -
          (set p | p in provided[..k] && p in start && start[p].OwnsNothing() && p !in stubFails)
      {
        assert provided[..k + 1] == provided[..k] + [provided[k]];
        if provided[k] in start && start[provided[k]].OwnsNothing() && provided[k] !in stubFails {
          RemoveInstalledDep(provided[k]);
        }
      }
      assert provided[..|provided|] == provided;
      return false;
    }
  }
}
