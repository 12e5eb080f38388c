/** What the records of installed components say over whole runs: of each file and each list, what the recipes changed
    and nothing else. */
module DepRecords {
  import opened Wrappers
  import opened DepState
  import opened DepEngine
  import opened DepRuns

  // ------------------------------------------------------------------------ one recipe

  /** After a recipe that went well, the component's record has in each list what it had and what the recipe changed:
      of the overrides those it sets by name and those that were not there before. A failed one changes no record. */
  lemma ProfileGains(catalog: Catalog, s: State, id: string, a: Attempt)
    requires id in catalog.profiles
    ensures var t := AfterProfile(catalog, s, id, a);
      && (!a.ok ==> t.installed == s.installed)
      && (a.ok ==> Gained(s.installed, t.installed, id,
            a.delta.(dllOverrides := set dll | dll in a.written + a.named && (dll in a.named || dll !in s.overrides))))
      && (forall dll :: dll in t.overrides <==> dll in s.overrides || dll in a.written || dll in a.named)
  {
    if a.ok {
      var profile := catalog.profiles[id];
      var delta := a.Recorded(s.overrides);
      var upserted := Upserted(s.installed, id, Elements(profile.dependencies), delta);
      StubsExactly(upserted, profile.provided, a.stubFails, id);
    }
  }

  // ------------------------------------------------------------------------ tracked files

  ghost predicate Tracked(installed: Installed, x: string, f: string) {
    x in installed && f in installed[x].createdFiles
  }

  lemma ProfileTracks(catalog: Catalog, s: State, id: string, a: Attempt, x: string, f: string)
    requires id in catalog.profiles
    ensures var t := AfterProfile(catalog, s, id, a);
      && (x in s.installed ==> x in t.installed)
      && (Tracked(t.installed, x, f) <==> Tracked(s.installed, x, f) || (a.ok && x == id && f in a.delta.createdFiles))
  {
    var profile := catalog.profiles[id];
    if a.ok {
      var upserted := Upserted(s.installed, id, Elements(profile.dependencies), a.Recorded(s.overrides));
      StubsExactly(upserted, profile.provided, a.stubFails, x);
    }
  }

  /** The plan gets to the component, its recipe goes well and creates the file. */
  predicate CreatedByPlan(plan: seq<string>, attempt: string -> Attempt, x: string, f: string) {
    && plan != [] && attempt(plan[0]).ok
    && ((plan[0] == x && f in attempt(x).delta.createdFiles) || CreatedByPlan(plan[1..], attempt, x, f))
  }

  predicate CreatedBy(event: Event, x: string, f: string) {
    event.Install? && CreatedByPlan(event.plan, event.attempt, x, f)
  }

  lemma {:induction false} PlanTracks(
    catalog: Catalog, s: State, plan: seq<string>, attempt: string -> Attempt, x: string, f: string)
    requires forall p :: p in plan ==> p in catalog.profiles
    ensures var t := RunPlan(catalog, s, plan, attempt);
      && (x in s.installed ==> x in t.installed)
      && (Tracked(t.installed, x, f) <==> Tracked(s.installed, x, f) || CreatedByPlan(plan, attempt, x, f))
    decreases |plan|
  {
    if plan != [] {
      ProfileTracks(catalog, s, plan[0], attempt(plan[0]), x, f);
      if attempt(plan[0]).ok {
        PlanTracks(catalog, AfterProfile(catalog, s, plan[0], attempt(plan[0])), plan[1..], attempt, x, f);
      }
    }
  }

  lemma StepTracks(catalog: Catalog, s: State, event: Event, t: State, x: string, f: string)
    requires IsStep(catalog, s, event, t)
    ensures Tracked(t.installed, x, f) <==>
      x in t.installed && (Tracked(s.installed, x, f) || CreatedBy(event, x, f))
  {
    if event.Install? {
      PlanTracks(catalog, s, event.plan, event.attempt, x, f);
    }
  }

  // The file was created at a step since which the component was installed all the time.
  ghost predicate Since(states: seq<State>, events: seq<Event>, n: nat, x: string, f: string, i: nat)
    requires |states| == |events| + 1 && n < |states|
  {
    i < n && CreatedBy(events[i], x, f) && forall j | i < j <= n :: x in states[j].installed
  }

  /** Over any run from an empty prefix, a component's record names a file exactly when a recipe of that component
      that went well created it and the component has been installed ever since. */
  lemma {:induction false} TrackedExactly(
    catalog: Catalog, states: seq<State>, events: seq<Event>, n: nat, x: string, f: string)
    requires IsRun(catalog, states, events) && n < |states| && states[0].installed == map[]
    ensures Tracked(states[n].installed, x, f) <==> exists i: nat :: Since(states, events, n, x, f, i)
  {
    if n > 0 {
      TrackedExactly(catalog, states, events, n - 1, x, f);
      assert StepAt(catalog, states, events, n - 1);
      StepTracks(catalog, states[n - 1], events[n - 1], states[n], x, f);
      if Tracked(states[n].installed, x, f) {
        if CreatedBy(events[n - 1], x, f) {
          assert Since(states, events, n, x, f, n - 1);
        } else {
          var i: nat :| Since(states, events, n - 1, x, f, i);
          assert Since(states, events, n, x, f, i);
        }
      } else if i: nat :| Since(states, events, n, x, f, i) {
        assert i < n - 1 ==> Since(states, events, n - 1, x, f, i);
      }
    }
  }
}
