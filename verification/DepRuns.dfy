/** Safety of the dependency engine over whole runs: a component's recorded dependencies stay installed, and the
    overrides in the registry are the initial ones and those installed components own. */
module DepRuns {
  import opened Wrappers
  import opened DepState
  import opened DepEngine
  import DepPlanner

  // --------------------------------------------------------------- recorded dependencies

  /** Every recorded dependency of an installed component is installed. */
  ghost predicate Closed(installed: Installed) {
    forall x, d :: x in installed && d in installed[x].dependencies ==> d in installed
  }

  ghost predicate Listed(catalog: Catalog, d: string) {
    exists x :: x in catalog.profiles && d in catalog.profiles[x].dependencies
  }

  ghost predicate FromCatalog(catalog: Catalog, installed: Installed) {
    forall x, d :: x in installed && d in installed[x].dependencies ==> Listed(catalog, d)
  }

  ghost predicate NoProvidedIsListed(catalog: Catalog) {
    forall x, p :: x in catalog.profiles && p in catalog.profiles[x].provided ==> !Listed(catalog, p)
  }

  lemma {:induction false} StubsOnlyAdd(installed: Installed, provided: seq<string>, fails: set<string>)
    ensures
      var after := WithStubs(installed, provided, fails);
      && installed.Keys <= after.Keys
      && forall x :: x in after ==>
        after[x].dependencies <= (if x in installed then installed[x].dependencies else {})
    decreases |provided|
  {
    if provided != [] {
      var next := if provided[0] in fails then installed else Upserted(installed, provided[0], {}, EMPTY);
      StubsOnlyAdd(next, provided[1..], fails);
    }
  }

  lemma ProfileKeepsClosed(catalog: Catalog, s: State, id: string, a: Attempt)
    requires id in catalog.profiles && Closed(s.installed) && FromCatalog(catalog, s.installed)
    requires forall d :: d in catalog.profiles[id].dependencies ==> d in s.installed
    ensures
      var t := AfterProfile(catalog, s, id, a);
      && Closed(t.installed) && FromCatalog(catalog, t.installed)
      && s.installed.Keys <= t.installed.Keys && (a.ok ==> id in t.installed)
  {
    var profile := catalog.profiles[id];
    var upserted := Upserted(s.installed, id, Elements(profile.dependencies), a.Recorded(s.overrides));
    StubsOnlyAdd(upserted, profile.provided, a.stubFails);
  }

  lemma {:induction false} PlanKeepsClosed(
    catalog: Catalog, start: set<string>, whole: seq<string>, k: nat, s: State, attempt: string -> Attempt)
    requires k <= |whole| && forall x :: x in whole ==> x in catalog.profiles
    requires DepPlanner.PrerequisitesFirst(catalog.Dependencies(), start, whole)
    requires start <= s.installed.Keys && forall x :: x in whole[..k] ==> x in s.installed
    requires Closed(s.installed) && FromCatalog(catalog, s.installed)
    ensures
      var t := RunPlan(catalog, s, whole[k..], attempt);
      Closed(t.installed) && FromCatalog(catalog, t.installed)
    decreases |whole| - k
  {
    if k < |whole| {
      var id := whole[k];
      var graph := catalog.Dependencies();
      forall d | d in catalog.profiles[id].dependencies
        ensures d in s.installed
      {
        assert DepPlanner.Edge(graph, id, d);
        DepPlanner.StepIsBelow(graph, id, d);
        assert d in start || d in whole[..k];
      }
      ProfileKeepsClosed(catalog, s, id, attempt(id));
      assert whole[..k + 1] == whole[..k] + [id];
      assert whole[k..][0] == id && whole[k..][1..] == whole[k + 1..];
      if attempt(id).ok {
        PlanKeepsClosed(catalog, start, whole, k + 1, AfterProfile(catalog, s, id, attempt(id)), attempt);
      }
    }
  }

  // Some component that stays after the removal of id lists one of the provided entries that go with it.
  ghost predicate ListsARemovedStub(catalog: Catalog, installed: Installed, id: string, fails: set<string>) {
    exists x, p ::
      && x in installed && x != id && x !in Stubs(catalog, installed, id, fails)
      && p in installed[x].dependencies && p in Stubs(catalog, installed, id, fails)
  }

  /** A completed removal keeps the recorded dependencies installed exactly when no remaining component lists a
      provided entry that is removed along: the check for dependents looks at the removed component alone. */
  lemma UninstallKeepsClosed(catalog: Catalog, s: State, id: string, fails: set<string>)
    requires Closed(s.installed) && Removable(catalog, s, id)
    ensures Closed(AfterUninstall(catalog, s, id, Completes, fails).installed) <==>
      !ListsARemovedStub(catalog, s.installed, id, fails)
  {
    var gone := Stubs(catalog, s.installed, id, fails);
    var t := AfterUninstall(catalog, s, id, Completes, fails);
    forall x | x in t.installed
      ensures id !in t.installed[x].dependencies
    {
      assert x !in Dependents(catalog, s.installed, id);
    }
    if ListsARemovedStub(catalog, s.installed, id, fails) {
      var x, p :| x in s.installed && x != id && x !in gone && p in s.installed[x].dependencies && p in gone;
      assert x in t.installed && p in t.installed[x].dependencies && p !in t.installed;
    } else {
      forall x, d | x in t.installed && d in t.installed[x].dependencies
        ensures d in t.installed
      {
        assert d in s.installed && d != id;
      }
    }
  }

  lemma StepKeepsClosed(catalog: Catalog, s: State, event: Event, t: State)
    requires NoProvidedIsListed(catalog) && IsStep(catalog, s, event, t)
    requires Closed(s.installed) && FromCatalog(catalog, s.installed)
    ensures Closed(t.installed) && FromCatalog(catalog, t.installed)
  {
    match event
    case Install(id, plan, attempt) =>
      assert plan[0..] == plan;
      PlanKeepsClosed(catalog, s.installed.Keys, plan, 0, s, attempt);
    case Uninstall(id, stop, fails) =>
      if Removable(catalog, s, id) && stop.Completes? {
        forall x, p | x in s.installed && p in s.installed[x].dependencies
          ensures p !in Stubs(catalog, s.installed, id, fails)
        {
          assert Listed(catalog, p);
        }
        UninstallKeepsClosed(catalog, s, id, fails);
      }
  }

  /** Over any run of installs, failing midway or not, and removals, stopped or not, every recorded dependency of an
      installed component is installed, when the catalog lists no provided id as a dependency. */
  lemma {:induction false} RunKeepsClosed(catalog: Catalog, states: seq<State>, events: seq<Event>, n: nat)
    requires NoProvidedIsListed(catalog) && IsRun(catalog, states, events) && n < |states|
    requires Closed(states[0].installed) && FromCatalog(catalog, states[0].installed)
    ensures Closed(states[n].installed) && FromCatalog(catalog, states[n].installed)
  {
    if n > 0 {
      RunKeepsClosed(catalog, states, events, n - 1);
      assert StepAt(catalog, states, events, n - 1);
      StepKeepsClosed(catalog, states[n - 1], events[n - 1], states[n]);
    }
  }

  // A catalog in which "p" provides "q", and "r" lists "q".
  function SharedCatalog(): Catalog {
    Catalog(map["p" := Profile([], ["q"], {}), "q" := Profile([], [], {}), "r" := Profile(["q"], [], {})], verb => {})
  }

  function Works(id: string): Attempt {
    Attempt(true, {}, {}, EMPTY, {})
  }

  const WITH_P := State(map["p" := EMPTY, "q" := EMPTY], {})
  const WITH_R := State(WITH_P.installed["r" := EMPTY.(dependencies := {"q"})], {})
  const R_ALONE := State(map["r" := EMPTY.(dependencies := {"q"})], {})

  lemma InstallP()
    ensures AfterProfile(SharedCatalog(), State(map[], {}), "p", Works("p")) == WITH_P
  {
    var s := State(map[], {});
    assert Elements<string>([]) == {};
    assert EMPTY.Merged({}, EMPTY) == EMPTY;
    assert Upserted(s.installed, "p", {}, EMPTY) == map["p" := EMPTY];
    assert WithStubs(WITH_P.installed, ["q"][1..], {}) == WITH_P.installed;
    assert WithStubs(map["p" := EMPTY], ["q"], {}) == WITH_P.installed;
  }

  lemma InstallR()
    ensures AfterProfile(SharedCatalog(), WITH_P, "r", Works("r")) == WITH_R
  {
    assert Elements(["q"]) == {"q"};
  }

  /** Without that condition it fails: "p" provides "q", "r" lists "q" and finds it installed, and removing "p" takes
      "q" from under "r". */
  lemma AListedProvidedIdBreaksIt() returns (states: seq<State>, events: seq<Event>)
    ensures IsRun(SharedCatalog(), states, events) && states[0].installed == map[]
    ensures !Closed(states[|events|].installed)
  {
    states := [State(map[], {}), WITH_P, WITH_R, R_ALONE];
    events := [Install("p", ["p"], Works), Install("r", ["r"], Works), Uninstall("p", Completes, {})];
    InstallP();
    InstallOne(SharedCatalog(), State(map[], {}), "p", Works);
    InstallR();
    InstallOne(SharedCatalog(), WITH_P, "r", Works);
    assert Stubs(SharedCatalog(), WITH_R.installed, "p", {}) == {"q"};
    assert WITH_R.installed - {"p"} - {"q"} == R_ALONE.installed;
    assert "q" in R_ALONE.installed["r"].dependencies;
  }

  // A component whose dependencies are installed and have none of their own is planned alone.
  lemma InstallOne(catalog: Catalog, s: State, id: string, attempt: string -> Attempt)
    requires id in catalog.profiles && id !in s.installed
    requires forall d :: d in catalog.profiles[id].dependencies ==>
      d in s.installed && d != id && d in catalog.profiles && catalog.profiles[d].dependencies == []
    ensures IsStep(catalog, s, Install(id, [id], attempt), AfterProfile(catalog, s, id, attempt(id)))
  {
    var graph := catalog.Dependencies();
    forall x
      ensures DepPlanner.Below(graph, id, x) <==> x in catalog.profiles[id].dependencies
      ensures x in catalog.profiles[id].dependencies ==> forall y :: !DepPlanner.Below(graph, x, y)
    {
      DepPlanner.BelowUnfolds(graph, id, x);
      forall d, y | d in catalog.profiles[id].dependencies
        ensures !DepPlanner.Below(graph, d, y)
      {
        DepPlanner.BelowUnfolds(graph, d, y);
      }
    }
    var next := AfterProfile(catalog, s, id, attempt(id));
    assert RunPlan(catalog, next, [id][1..], attempt) == next;
  }

  lemma {:induction false} StubsForget(installed: Installed, provided: seq<string>, fails: set<string>, x: string)
    requires x in installed
    ensures x in WithStubs(installed, provided, fails)
    ensures WithStubs(installed, provided, fails)[x].dependencies ==
      if x in provided && x !in fails then {} else installed[x].dependencies
    decreases |provided|
  {
    if provided != [] {
      var next := if provided[0] in fails then installed else Upserted(installed, provided[0], {}, EMPTY);
      StubsForget(next, provided[1..], fails, x);
    }
  }

  /** Installing a component keeps the recorded dependencies of another installed one exactly when it does not provide
      that one, or that one had none: recording a provided id writes an empty list over what was there. */
  lemma InstallForgetsOfProvided(catalog: Catalog, s: State, id: string, a: Attempt, x: string)
    requires id in catalog.profiles && a.ok && x in s.installed && x != id
    ensures x in AfterProfile(catalog, s, id, a).installed
    ensures AfterProfile(catalog, s, id, a).installed[x].dependencies == s.installed[x].dependencies <==>
      x !in catalog.profiles[id].provided || x in a.stubFails || s.installed[x].dependencies == {}
  {
    var profile := catalog.profiles[id];
    var upserted := Upserted(s.installed, id, Elements(profile.dependencies), a.Recorded(s.overrides));
    StubsForget(upserted, profile.provided, a.stubFails, x);
  }

  /** An input that shows it: "q" is installed with a dependency recorded, and "p", which provides it, is installed. */
  lemma AnInstallForgets() returns (s: State, t: State)
    ensures IsStep(SharedCatalog(), s, Install("p", ["p"], Works), t)
    ensures "q" in s.installed && s.installed["q"].dependencies == {"z"}
    ensures "q" in t.installed && t.installed["q"].dependencies == {}
  {
    s := State(map["q" := EMPTY.(dependencies := {"z"})], {});
    t := AfterProfile(SharedCatalog(), s, "p", Works("p"));
    InstallOne(SharedCatalog(), s, "p", Works);
    InstallForgetsOfProvided(SharedCatalog(), s, "p", Works("p"), "q");
    var upserted := Upserted(s.installed, "p", Elements([]), Works("p").Recorded(s.overrides));
    StubsForget(upserted, ["q"], {}, "q");
  }

  /** Removing a component takes no other record than those of provided ids that own nothing. */
  lemma RemovalTakesOnlyEmptyStubs(catalog: Catalog, s: State, id: string, stop: Stop, fails: set<string>, x: string)
    requires x in s.installed && x !in AfterUninstall(catalog, s, id, stop, fails).installed
    ensures x == id || (x in catalog.Provided(id) && s.installed[x].OwnsNothing())
    ensures x != id ==> !s.installed[x].IsPrefixIntegration()
  {
  }

  // ------------------------------------------------------------- install, then removal

  // A provided id that is recorded keeps all but its dependencies, and a new one starts empty.
  ghost function AfterStubs(installed: Installed, provided: seq<string>, fails: set<string>, x: string): Record {
    var before := if x in installed then installed[x] else EMPTY;
    if x in provided && x !in fails then before.(dependencies := {}) else before
  }

  lemma {:induction false} StubsExactly(installed: Installed, provided: seq<string>, fails: set<string>, x: string)
    ensures
      var after := WithStubs(installed, provided, fails);
      && (x in after <==> x in installed || (x in provided && x !in fails))
      && (x in after ==> after[x] == AfterStubs(installed, provided, fails, x))
    decreases |provided|
  {
    if provided != [] {
      var next := if provided[0] in fails then installed else Upserted(installed, provided[0], {}, EMPTY);
      StubsExactly(next, provided[1..], fails, x);
    }
  }

  /** No record lists the new component, and every provided one is held by changes of its own and has no dependencies
      that recording it again would forget. */
  ghost predicate RecordsComeBack(catalog: Catalog, installed: Installed, id: string, fails: set<string>) {
    && (forall x :: x in installed ==> id !in installed[x].dependencies)
    && (forall x :: x in installed && x in catalog.Provided(id) ==>
          installed[x].HasRemovableChanges() && (x in fails || installed[x].dependencies == {}))
  }

  /** No record lists the new component, but for provided ones that the install makes forget it, and none of those
      provided stands in the way of removing it. */
  ghost predicate RemovableSoon(catalog: Catalog, installed: Installed, id: string, fails: set<string>) {
    forall x :: x in installed ==>
      && (id in installed[x].dependencies ==> x in catalog.Provided(id) && x !in fails)
      && (x in catalog.Provided(id) ==> !installed[x].IsPrefixIntegration())
  }

  /** What the component will be taken to have set: what its recipe's winetricks verbs are known to set when it has some
      and logged none, and else what was not there before or it sets by name. */
  ghost function SetByInstall(catalog: Catalog, s: State, id: string, a: Attempt): set<string>
    requires id in catalog.profiles
  {
    SetOverrides(catalog, id, EMPTY.Merged(Elements(catalog.profiles[id].dependencies), a.Recorded(s.overrides)))
  }

  // Another component, installed or first recorded as provided by this install, is taken to have set the override.
  ghost predicate SetBeside(
    catalog: Catalog, installed: Installed, id: string, fails: set<string>, x: string, dll: string)
  {
    x != id &&
    if x in installed then dll in SetOverrides(catalog, x, installed[x])
    else x in catalog.Provided(id) && x !in fails && dll in SetOverrides(catalog, x, EMPTY)
  }

  ghost predicate SetByOthers(catalog: Catalog, installed: Installed, id: string, fails: set<string>, dll: string) {
    exists x :: SetBeside(catalog, installed, id, fails, x, dll)
  }

  /** Every new override is the component's alone, and every one of its that was there is another's too. */
  ghost predicate OverridesComeBack(catalog: Catalog, s: State, id: string, a: Attempt)
    requires id in catalog.profiles
  {
    var mine := SetByInstall(catalog, s, id, a);
    && (forall dll :: dll in a.Overrides() - s.overrides ==>
          dll in mine && !SetByOthers(catalog, s.installed, id, a.stubFails, dll))
    && (forall dll :: dll in mine * s.overrides ==> SetByOthers(catalog, s.installed, id, a.stubFails, dll))
  }

  lemma InstalledAfter(catalog: Catalog, s: State, id: string, a: Attempt)
    requires id in catalog.profiles && id !in s.installed && a.ok
    ensures
      var t := AfterProfile(catalog, s, id, a);
      && id in t.installed
      && forall x :: x != id ==>
           && (x in t.installed <==> x in s.installed || (x in catalog.Provided(id) && x !in a.stubFails))
           && (x in t.installed ==>
                 t.installed[x] == AfterStubs(s.installed, catalog.Provided(id), a.stubFails, x))
  {
    var profile := catalog.profiles[id];
    var upserted := Upserted(s.installed, id, Elements(profile.dependencies), a.Recorded(s.overrides));
    forall x
      ensures
        var after := WithStubs(upserted, profile.provided, a.stubFails);
        && (x in after <==> x in upserted || (x in profile.provided && x !in a.stubFails))
        && (x in after ==> after[x] == AfterStubs(upserted, profile.provided, a.stubFails, x))
    {
      StubsExactly(upserted, profile.provided, a.stubFails, x);
    }
  }

  // The component can be removed again exactly when no record lists it and no provided one stands in the way.
  lemma RemovableAgain(catalog: Catalog, s: State, id: string, a: Attempt)
    requires id in catalog.profiles && id !in s.installed && a.ok
    ensures Removable(catalog, AfterProfile(catalog, s, id, a), id) <==>
      RemovableSoon(catalog, s.installed, id, a.stubFails)
  {
    var t := AfterProfile(catalog, s, id, a);
    InstalledAfter(catalog, s, id, a);
    forall x | x in s.installed
      ensures x in Dependents(catalog, t.installed, id) <==>
        || (id in s.installed[x].dependencies && !(x in catalog.Provided(id) && x !in a.stubFails))
        || (x in catalog.Provided(id) && s.installed[x].IsPrefixIntegration())
    {
    }
    forall x | x in Dependents(catalog, t.installed, id)
      ensures x in s.installed
    {
    }
  }

  // What a removal right after the install leaves of one record.
  lemma LeftAfterRemoval(catalog: Catalog, s: State, id: string, a: Attempt, x: string)
    requires id in catalog.profiles && id !in s.installed && a.ok
    requires Removable(catalog, AfterProfile(catalog, s, id, a), id)
    ensures
      var u := AfterUninstall(catalog, AfterProfile(catalog, s, id, a), id, Completes, {});
      && (x in u.installed <==>
            x in s.installed && (x in catalog.Provided(id) ==> !s.installed[x].OwnsNothing()))
      && (x in u.installed ==> u.installed[x] == AfterStubs(s.installed, catalog.Provided(id), a.stubFails, x))
  {
    InstalledAfter(catalog, s, id, a);
  }

  /** Installing a component and removing it again gives back the records exactly when none listed it and each provided
      one that was there has changes of its own and loses no dependencies to the install. */
  lemma InstallThenRemove(catalog: Catalog, s: State, id: string, a: Attempt)
    requires id in catalog.profiles && id !in s.installed && a.ok
    ensures
      var t := AfterProfile(catalog, s, id, a);
      AfterUninstall(catalog, t, id, Completes, {}).installed == s.installed <==>
        RecordsComeBack(catalog, s.installed, id, a.stubFails)
  {
    var t := AfterProfile(catalog, s, id, a);
    var u := AfterUninstall(catalog, t, id, Completes, {});
    RemovableAgain(catalog, s, id, a);
    if Removable(catalog, t, id) {
      forall x
        ensures x in u.installed <==> x in s.installed && (x in catalog.Provided(id) ==> !s.installed[x].OwnsNothing())
        ensures x in u.installed ==> u.installed[x] == AfterStubs(s.installed, catalog.Provided(id), a.stubFails, x)
      {
        LeftAfterRemoval(catalog, s, id, a, x);
      }
      if RecordsComeBack(catalog, s.installed, id, a.stubFails) {
        assert u.installed == s.installed;
      }
    } else {
      InstalledAfter(catalog, s, id, a);
    }
  }

  // What the component and the others are taken to have set, once it is installed.
  lemma SetAfterInstall(catalog: Catalog, s: State, id: string, a: Attempt, dll: string)
    requires id in catalog.profiles && id !in s.installed && a.ok
    ensures
      var t := AfterProfile(catalog, s, id, a);
      && id in t.installed && SetOverrides(catalog, id, t.installed[id]) == SetByInstall(catalog, s, id, a)
      && (AnotherSet(catalog, t.installed, id, dll) <==> SetByOthers(catalog, s.installed, id, a.stubFails, dll))
  {
    var t := AfterProfile(catalog, s, id, a);
    var profile := catalog.profiles[id];
    var upserted := Upserted(s.installed, id, Elements(profile.dependencies), a.Recorded(s.overrides));
    StubsExactly(upserted, profile.provided, a.stubFails, id);
    InstalledAfter(catalog, s, id, a);
    forall x
      ensures x in t.installed && x != id && dll in SetOverrides(catalog, x, t.installed[x]) <==>
        SetBeside(catalog, s.installed, id, a.stubFails, x, dll)
    {
    }
  }

  /** The overrides come back exactly when every new one is the component's alone and every one of its that was there is
      another's too; when it cannot be removed, exactly when none was new. */
  lemma InstallThenRemoveOverrides(catalog: Catalog, s: State, id: string, a: Attempt)
    requires id in catalog.profiles && id !in s.installed && a.ok
    ensures
      var t := AfterProfile(catalog, s, id, a);
      AfterUninstall(catalog, t, id, Completes, {}).overrides == s.overrides <==>
        if RemovableSoon(catalog, s.installed, id, a.stubFails) then OverridesComeBack(catalog, s, id, a)
        else a.Overrides() <= s.overrides
  {
    var t := AfterProfile(catalog, s, id, a);
    var u := AfterUninstall(catalog, t, id, Completes, {});
    RemovableAgain(catalog, s, id, a);
    if Removable(catalog, t, id) {
      forall dll
        ensures dll in u.overrides <==>
          && (dll in s.overrides || dll in a.Overrides())
          && (dll in SetByInstall(catalog, s, id, a) ==> SetByOthers(catalog, s.installed, id, a.stubFails, dll))
      {
        SetAfterInstall(catalog, s, id, a, dll);
      }
    }
  }

  // -------------------------------------------------------------------------- overrides

  ghost predicate RecordedBy(installed: Installed, x: string, dll: string) {
    x in installed && dll in installed[x].dllOverrides
  }

  ghost predicate Recorded(installed: Installed, dll: string) {
    exists x :: RecordedBy(installed, x, dll)
  }

  /** Every record names the overrides the removal goes by. */
  ghost predicate OwnRecords(catalog: Catalog, installed: Installed) {
    forall x :: x in installed ==> SetOverrides(catalog, x, installed[x]) == installed[x].dllOverrides
  }

  // Recorded overrides are in the registry but for lost ones, and the registry holds initial, recorded and leaked ones.
  ghost predicate Balanced(initial: set<string>, leaked: set<string>, lost: set<string>, s: State) {
    && (forall dll :: Recorded(s.installed, dll) ==> dll in s.overrides || dll in lost)
    && (forall dll :: dll in s.overrides ==> dll in initial || dll in leaked || Recorded(s.installed, dll))
  }

  /** The overrides a failing install leaves that were not there before it. */
  ghost function LeakedByPlan(catalog: Catalog, s: State, plan: seq<string>, attempt: string -> Attempt): set<string>
    requires forall x :: x in plan ==> x in catalog.profiles
    decreases |plan|
  {
    if plan == [] then {}
    else
      var a := attempt(plan[0]);
      if a.ok then LeakedByPlan(catalog, AfterProfile(catalog, s, plan[0], a), plan[1..], attempt)
      else a.Overrides() - s.overrides
  }

  // Some component other than id records the override.
  ghost predicate OtherRecords(installed: Installed, id: string, dll: string) {
    exists x :: x != id && RecordedBy(installed, x, dll)
  }

  /** The overrides a step leaves in the registry that no component records any more: those of a failed recipe, and
      those a removed component alone recorded but did not set, as its removal sees it. */
  ghost function Leaks(catalog: Catalog, s: State, event: Event): set<string>
    requires Possible(catalog, s, event)
  {
    match event
    case Install(_, plan, attempt) => LeakedByPlan(catalog, s, plan, attempt)
    case Uninstall(id, stop, _) =>
      if !Removable(catalog, s, id) || !stop.Completes? then {}
      else (
        set dll | dll in s.installed[id].dllOverrides && dll in s.overrides &&
          dll !in OverridesToRemove(catalog, s.installed, id) && !OtherRecords(s.installed, id, dll))
  }

  /** The overrides a removal takes out of the registry that a component still records: its own, when it stops before
      the component is forgotten, and others', when these set fewer than they record. */
  ghost function Loses(catalog: Catalog, s: State, event: Event): set<string> {
    if event.Install? || !Removable(catalog, s, event.id) || event.stop.BeforeOverrides? then {}
    else (
      set dll | dll in OverridesToRemove(catalog, s.installed, event.id) &&
        (OtherRecords(s.installed, event.id, dll) ||
         (event.stop.AfterOverrides? && dll in s.installed[event.id].dllOverrides)))
  }

  lemma {:induction false} StubsRecordNothing(installed: Installed, provided: seq<string>, fails: set<string>)
    ensures forall x, dll ::
      RecordedBy(WithStubs(installed, provided, fails), x, dll) <==> RecordedBy(installed, x, dll)
    decreases |provided|
  {
    if provided != [] {
      var next := if provided[0] in fails then installed else Upserted(installed, provided[0], {}, EMPTY);
      forall x, dll
        ensures RecordedBy(next, x, dll) <==> RecordedBy(installed, x, dll)
      {
      }
      StubsRecordNothing(next, provided[1..], fails);
    }
  }

  lemma ProfileRecords(catalog: Catalog, s: State, id: string, a: Attempt)
    requires id in catalog.profiles
    ensures
      var t := AfterProfile(catalog, s, id, a);
      forall x, dll :: RecordedBy(t.installed, x, dll) <==>
        RecordedBy(s.installed, x, dll) || (a.ok && x == id && dll in a.Recorded(s.overrides).dllOverrides)
  {
    var profile := catalog.profiles[id];
    var upserted := Upserted(s.installed, id, Elements(profile.dependencies), a.Recorded(s.overrides));
    StubsRecordNothing(upserted, profile.provided, a.stubFails);
  }

  lemma ProfileBalanced(
    catalog: Catalog, initial: set<string>, leaked: set<string>, lost: set<string>, s: State, id: string, a: Attempt)
    requires id in catalog.profiles && Balanced(initial, leaked, lost, s)
    ensures Balanced(initial, leaked + (if a.ok then {} else a.Overrides() - s.overrides), lost,
                     AfterProfile(catalog, s, id, a))
  {
    ProfileRecords(catalog, s, id, a);
    var t := AfterProfile(catalog, s, id, a);
    var more := leaked + (if a.ok then {} else a.Overrides() - s.overrides);
    forall dll | Recorded(t.installed, dll)
      ensures dll in t.overrides || dll in lost
    {
      var x :| RecordedBy(t.installed, x, dll);
      if RecordedBy(s.installed, x, dll) {
        assert Recorded(s.installed, dll);
      }
    }
    forall dll | dll in t.overrides
      ensures dll in initial || dll in more || Recorded(t.installed, dll)
    {
      if dll in s.overrides {
        if Recorded(s.installed, dll) {
          var x :| RecordedBy(s.installed, x, dll);
          assert RecordedBy(t.installed, x, dll);
        }
      } else if a.ok {
        assert RecordedBy(t.installed, id, dll);
      }
    }
  }

  lemma {:induction false} PlanBalanced(
    catalog: Catalog, initial: set<string>, leaked: set<string>, lost: set<string>, s: State,
    plan: seq<string>, attempt: string -> Attempt)
    requires forall x :: x in plan ==> x in catalog.profiles
    requires Balanced(initial, leaked, lost, s)
    ensures Balanced(initial, leaked + LeakedByPlan(catalog, s, plan, attempt), lost,
                     RunPlan(catalog, s, plan, attempt))
    decreases |plan|
  {
    if plan != [] {
      ProfileBalanced(catalog, initial, leaked, lost, s, plan[0], attempt(plan[0]));
      if attempt(plan[0]).ok {
        assert leaked + {} == leaked;
        PlanBalanced(catalog, initial, leaked, lost, AfterProfile(catalog, s, plan[0], attempt(plan[0])),
                     plan[1..], attempt);
      }
    }
  }

  lemma RecordedAfterRemoval(catalog: Catalog, s: State, id: string, stop: Stop, fails: set<string>, dll: string)
    requires Removable(catalog, s, id)
    ensures Recorded(AfterUninstall(catalog, s, id, stop, fails).installed, dll) <==>
      OtherRecords(s.installed, id, dll) || (!stop.Completes? && dll in s.installed[id].dllOverrides)
  {
    var t := AfterUninstall(catalog, s, id, stop, fails);
    forall x
      ensures RecordedBy(t.installed, x, dll) <==> RecordedBy(s.installed, x, dll) && (x != id || !stop.Completes?)
    {
    }
    assert Recorded(t.installed, dll) <==> exists x :: RecordedBy(t.installed, x, dll);
    assert !stop.Completes? && dll in s.installed[id].dllOverrides ==> RecordedBy(t.installed, id, dll);
  }

  lemma UninstallBalanced(
    catalog: Catalog, initial: set<string>, leaked: set<string>, lost: set<string>, s: State,
    id: string, stop: Stop, fails: set<string>)
    requires Balanced(initial, leaked, lost, s)
    ensures
      var event := Uninstall(id, stop, fails);
      Balanced(initial, leaked + Leaks(catalog, s, event), lost + Loses(catalog, s, event),
               AfterUninstall(catalog, s, id, stop, fails))
  {
    var event := Uninstall(id, stop, fails);
    var t := AfterUninstall(catalog, s, id, stop, fails);
    if Removable(catalog, s, id) && !stop.BeforeOverrides? {
      forall dll
        ensures Recorded(t.installed, dll) ==> dll in t.overrides || dll in lost + Loses(catalog, s, event)
        ensures dll in t.overrides ==>
          dll in initial || dll in leaked + Leaks(catalog, s, event) || Recorded(t.installed, dll)
      {
        RecordedAfterRemoval(catalog, s, id, stop, fails, dll);
        RecordedAfterRemoval(catalog, s, id, BeforeOverrides, fails, dll);
      }
    }
  }

  lemma StepBalanced(
    catalog: Catalog, initial: set<string>, leaked: set<string>, lost: set<string>, s: State, event: Event, t: State)
    requires IsStep(catalog, s, event, t) && Balanced(initial, leaked, lost, s)
    ensures Balanced(initial, leaked + Leaks(catalog, s, event), lost + Loses(catalog, s, event), t)
  {
    match event
    case Install(id, plan, attempt) =>
      PlanBalanced(catalog, initial, leaked, lost, s, plan, attempt);
      assert lost + {} == lost;
    case Uninstall(id, stop, fails) =>
      UninstallBalanced(catalog, initial, leaked, lost, s, id, stop, fails);
  }

  ghost function AllLeaks(catalog: Catalog, states: seq<State>, events: seq<Event>, n: nat): set<string>
    requires IsRun(catalog, states, events) && n < |states|
  {
    if n == 0 then {} else
      assert StepAt(catalog, states, events, n - 1);
      AllLeaks(catalog, states, events, n - 1) + Leaks(catalog, states[n - 1], events[n - 1])
  }

  ghost function AllLosses(catalog: Catalog, states: seq<State>, events: seq<Event>, n: nat): set<string>
    requires IsRun(catalog, states, events) && n < |states|
  {
    if n == 0 then {} else
      AllLosses(catalog, states, events, n - 1) + Loses(catalog, states[n - 1], events[n - 1])
  }

  lemma BalancedNext(catalog: Catalog, initial: set<string>, leaked: set<string>, lost: set<string>,
                     states: seq<State>, events: seq<Event>, n: nat)
    requires IsRun(catalog, states, events) && 0 < n < |states|
    requires Balanced(initial, leaked + AllLeaks(catalog, states, events, n - 1),
                      lost + AllLosses(catalog, states, events, n - 1), states[n - 1])
    ensures Balanced(initial, leaked + AllLeaks(catalog, states, events, n),
                     lost + AllLosses(catalog, states, events, n), states[n])
  {
    assert StepAt(catalog, states, events, n - 1);
    var s, e := states[n - 1], events[n - 1];
    var leaks, losses := AllLeaks(catalog, states, events, n - 1), AllLosses(catalog, states, events, n - 1);
    StepBalanced(catalog, initial, leaked + leaks, lost + losses, s, e, states[n]);
    assert leaked + leaks + Leaks(catalog, s, e) == leaked + (leaks + Leaks(catalog, s, e));
    assert lost + losses + Loses(catalog, s, e) == lost + (losses + Loses(catalog, s, e));
  }

  /** Over any run, from any start and whatever the records are like, the registry and the records differ only by the
      initial overrides, by those that failed installs and removals left behind and by those that removals took from
      components still there, besides what they differed by at the start. */
  lemma {:induction false} RunBalanced(catalog: Catalog, initial: set<string>, leaked: set<string>, lost: set<string>,
                                       states: seq<State>, events: seq<Event>, n: nat)
    requires IsRun(catalog, states, events) && n < |states|
    requires Balanced(initial, leaked, lost, states[0])
    ensures Balanced(initial, leaked + AllLeaks(catalog, states, events, n),
                     lost + AllLosses(catalog, states, events, n), states[n])
  {
    if n == 0 {
      assert leaked + {} == leaked && lost + {} == lost;
    } else {
      RunBalanced(catalog, initial, leaked, lost, states, events, n - 1);
      BalancedNext(catalog, initial, leaked, lost, states, events, n);
    }
  }

  /** An install keeps the registry down to initial and recorded overrides exactly when the recipe that failed, if one
      did, wrote no override that was outside the registry at its turn and is not an initial one: files are rolled back,
      overrides are not. */
  lemma InstallBalancedExactly(catalog: Catalog, initial: set<string>, s: State, event: Event)
    requires event.Install? && Possible(catalog, s, event) && Balanced(initial, {}, {}, s)
    ensures Balanced(initial, {}, {}, After(catalog, s, event)) <==> Leaks(catalog, s, event) <= initial
  {
    StepBalanced(catalog, initial, {}, {}, s, event, After(catalog, s, event));
    LeaksArePresent(catalog, s, event.plan, event.attempt);
    LeaksAreUnrecorded(catalog, initial, s, event.plan, event.attempt);
  }

  lemma {:induction false} LeaksAreUnrecorded(
    catalog: Catalog, initial: set<string>, s: State, plan: seq<string>, attempt: string -> Attempt)
    requires forall x :: x in plan ==> x in catalog.profiles
    requires Balanced(initial, {}, {}, s)
    ensures forall dll :: dll in LeakedByPlan(catalog, s, plan, attempt) ==>
      !Recorded(RunPlan(catalog, s, plan, attempt).installed, dll)
    decreases |plan|
  {
    if plan != [] && attempt(plan[0]).ok {
      ProfileBalanced(catalog, initial, {}, {}, s, plan[0], attempt(plan[0]));
      var none: set<string> := {};
      assert none + {} == none;
      LeaksAreUnrecorded(catalog, initial, AfterProfile(catalog, s, plan[0], attempt(plan[0])), plan[1..], attempt);
    }
  }

  lemma {:induction false} LeaksArePresent(catalog: Catalog, s: State, plan: seq<string>, attempt: string -> Attempt)
    requires forall x :: x in plan ==> x in catalog.profiles
    ensures LeakedByPlan(catalog, s, plan, attempt) <= RunPlan(catalog, s, plan, attempt).overrides
    decreases |plan|
  {
    if plan != [] && attempt(plan[0]).ok {
      LeaksArePresent(catalog, AfterProfile(catalog, s, plan[0], attempt(plan[0])), plan[1..], attempt);
    }
  }

  /** A removal keeps the registry down to initial and recorded overrides, and the recorded ones in it, exactly when it
      takes none that a component still records and leaves none behind but initial ones. */
  lemma UninstallBalancedExactly(catalog: Catalog, initial: set<string>, s: State, event: Event)
    requires event.Uninstall? && Balanced(initial, {}, {}, s)
    ensures Balanced(initial, {}, {}, After(catalog, s, event)) <==>
      Loses(catalog, s, event) == {} && Leaks(catalog, s, event) <= initial
  {
    var t := After(catalog, s, event);
    StepBalanced(catalog, initial, {}, {}, s, event, t);
    forall dll | dll in Loses(catalog, s, event)
      ensures !Balanced(initial, {}, {}, t)
    {
      RecordedAfterRemoval(catalog, s, event.id, event.stop, event.stubFails, dll);
    }
    forall dll | dll in Leaks(catalog, s, event)
      ensures dll in t.overrides && !Recorded(t.installed, dll)
    {
      RecordedAfterRemoval(catalog, s, event.id, event.stop, event.stubFails, dll);
    }
  }

  /** A removal that completes, with every record naming the overrides it set, takes none another records and leaves
      none behind. Records from before verbs were recorded, and those of a verb that was logged already, are not like
      that: what such a component set is read off its verbs. */
  lemma OwnRecordsBalance(catalog: Catalog, s: State, id: string, fails: set<string>)
    requires OwnRecords(catalog, s.installed)
    ensures Loses(catalog, s, Uninstall(id, Completes, fails)) == {}
    ensures Leaks(catalog, s, Uninstall(id, Completes, fails)) == {}
  {
    if Removable(catalog, s, id) {
      forall x, dll | x != id && RecordedBy(s.installed, x, dll)
        ensures dll !in OverridesToRemove(catalog, s.installed, id)
      {
      }
      forall dll | dll in s.installed[id].dllOverrides && !OtherRecords(s.installed, id, dll)
        ensures dll in OverridesToRemove(catalog, s.installed, id)
      {
        forall x | x in s.installed && x != id
          ensures dll !in SetOverrides(catalog, x, s.installed[x])
        {
          assert !RecordedBy(s.installed, x, dll);
        }
      }
    }
  }

  /** An install that fails after it set an override leaves that one recorded nowhere. */
  lemma AFailedInstallLeaks() returns (event: Event, t: State)
    ensures IsStep(SharedCatalog(), State(map[], {}), event, t)
    ensures Balanced({}, {}, {}, State(map[], {})) && !Balanced({}, {}, {}, t)
  {
    var fails := (id: string) => Attempt(false, {"dll"}, {}, EMPTY, {});
    event := Install("p", ["p"], fails);
    InstallOne(SharedCatalog(), State(map[], {}), "p", fails);
    t := State(map[], {"dll"});
  }

  /** A removal that stops after its registry step leaves a component recorded without its override. */
  lemma AStoppedRemovalLoses() returns (s: State, t: State)
    ensures IsStep(SharedCatalog(), s, Uninstall("p", AfterOverrides, {}), t)
    ensures Balanced({}, {}, {}, s) && !Balanced({}, {}, {}, t)
  {
    var installed := map["p" := EMPTY.(dllOverrides := {"dll"})];
    s, t := State(installed, {"dll"}), State(installed, {});
    assert RecordedBy(installed, "p", "dll");
    assert Recorded(installed, "dll");
    assert OverridesToRemove(SharedCatalog(), installed, "p") == {"dll"};
    assert Dependents(SharedCatalog(), installed, "p") == {};
  }

  /** An override leaves the registry only with its last owner. */
  lemma OverrideLeavesWithLastOwner(catalog: Catalog, s: State, event: Event, t: State, dll: string)
    requires IsStep(catalog, s, event, t) && dll in s.overrides && dll !in t.overrides
    ensures event.Uninstall? && Removable(catalog, s, event.id)
    ensures dll in SetOverrides(catalog, event.id, s.installed[event.id])
    ensures forall x :: x in s.installed && x != event.id ==> dll !in SetOverrides(catalog, x, s.installed[x])
  {
    match event
    case Install(id, plan, attempt) =>
      PlanOnlyAdds(catalog, s, plan, attempt);
    case Uninstall(id, stop, fails) =>
  }

  lemma {:induction false} PlanOnlyAdds(catalog: Catalog, s: State, plan: seq<string>, attempt: string -> Attempt)
    requires forall x :: x in plan ==> x in catalog.profiles
    ensures s.overrides <= RunPlan(catalog, s, plan, attempt).overrides
    decreases |plan|
  {
    if plan != [] && attempt(plan[0]).ok {
      PlanOnlyAdds(catalog, AfterProfile(catalog, s, plan[0], attempt(plan[0])), plan[1..], attempt);
    }
  }
}
