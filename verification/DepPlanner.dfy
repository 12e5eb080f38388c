/** The install planner: a depth-first walk over the component catalog that lists what has to be installed, in
    order, and refuses a cycle or a component without a profile. The catalog is arbitrary. */
module DepPlanner {
  import opened Wrappers

  // What the catalog says each component depends on, by component id.
  type Catalog = map<string, seq<string>>

  datatype PlanError = Cycle(id: string) | MissingProfile(id: string)

  ghost predicate Edge(catalog: Catalog, a: string, b: string) {
    a in catalog && b in catalog[a]
  }

  ghost predicate IsPath(catalog: Catalog, p: seq<string>) {
    forall i :: 0 < i < |p| ==> Edge(catalog, p[i - 1], p[i])
  }

  ghost predicate Connects(catalog: Catalog, p: seq<string>, a: string, b: string) {
    |p| >= 2 && p[0] == a && p[|p| - 1] == b && IsPath(catalog, p)
  }

  // b is reached from a by following at least one dependency.
  ghost predicate Below(catalog: Catalog, a: string, b: string) {
    exists p: seq<string> :: Connects(catalog, p, a, b)
  }

  ghost predicate Reaches(catalog: Catalog, a: string, b: string) {
    a == b || Below(catalog, a, b)
  }

  ghost predicate Acceptable(catalog: Catalog, x: string) {
    x in catalog && !Below(catalog, x, x)
  }

  // The graph reachable from id is acyclic and every profile in it is present.
  ghost predicate Plannable(catalog: Catalog, id: string) {
    forall x :: Reaches(catalog, id, x) ==> Acceptable(catalog, x)
  }

  lemma StepIsBelow(catalog: Catalog, a: string, b: string)
    requires Edge(catalog, a, b)
    ensures Below(catalog, a, b)
  {
    assert Connects(catalog, [a, b], a, b);
  }

  lemma BelowTransitive(catalog: Catalog, a: string, b: string, c: string)
    requires Reaches(catalog, a, b) && Reaches(catalog, b, c)
    ensures Reaches(catalog, a, c)
    ensures Below(catalog, a, b) || Below(catalog, b, c) ==> Below(catalog, a, c)
  {
    if (a != b && b != c) || (Below(catalog, a, b) && Below(catalog, b, c)) {
      var p: seq<string> :| Connects(catalog, p, a, b);
      var q: seq<string> :| Connects(catalog, q, b, c);
      var r := p + q[1..];
      forall i | 0 < i < |r|
        ensures Edge(catalog, r[i - 1], r[i])
      {
        if i >= |p| {
          assert r[i] == q[i - |p| + 1] && r[i - 1] == q[i - |p|];
        }
      }
      assert Connects(catalog, r, a, c);
    }
  }

  // What lies below a component is its dependencies and what lies below them.
  lemma BelowUnfolds(catalog: Catalog, a: string, b: string)
    ensures Below(catalog, a, b) <==> a in catalog && exists d :: d in catalog[a] && Reaches(catalog, d, b)
  {
    if Below(catalog, a, b) {
      var p: seq<string> :| Connects(catalog, p, a, b);
      assert Edge(catalog, p[0], p[1]);
      if |p| > 2 {
        assert Connects(catalog, p[1..], p[1], b);
      }
      assert p[1] in catalog[a] && Reaches(catalog, p[1], b);
    } else if a in catalog {
      forall d | d in catalog[a]
        ensures !Reaches(catalog, d, b)
      {
        StepIsBelow(catalog, a, d);
        if Reaches(catalog, d, b) {
          BelowTransitive(catalog, a, d, b);
        }
      }
    }
  }

  /** A component can be planned exactly when it has a profile and each of its dependencies can be planned. */
  lemma PlannableUnfolds(catalog: Catalog, id: string)
    ensures Plannable(catalog, id) <==> id in catalog && forall d :: d in catalog[id] ==> Plannable(catalog, d)
  {
    if Plannable(catalog, id) {
      assert Reaches(catalog, id, id);
      assert Acceptable(catalog, id);
      forall d, x | d in catalog[id] && Reaches(catalog, d, x)
        ensures Acceptable(catalog, x)
      {
        StepIsBelow(catalog, id, d);
        BelowTransitive(catalog, id, d, x);
      }
    } else if id in catalog && forall d :: d in catalog[id] ==> Plannable(catalog, d) {
      var x :| Reaches(catalog, id, x) && !Acceptable(catalog, x);
      BelowUnfolds(catalog, id, x);
    }
  }

  // Every uninstalled component below a planned one stands before it.
  ghost predicate PrerequisitesFirst(catalog: Catalog, installed: set<string>, plan: seq<string>) {
    forall i, b :: 0 <= i < |plan| && b !in installed && Below(catalog, plan[i], b) ==> b in plan[..i]
  }

  ghost predicate NoDuplicates(plan: seq<string>) {
    forall i, j :: 0 <= i < j < |plan| ==> plan[i] != plan[j]
  }

  ghost predicate SoundPlan(catalog: Catalog, installed: set<string>, plan: seq<string>) {
    && NoDuplicates(plan)
    && PrerequisitesFirst(catalog, installed, plan)
    && forall x :: x in plan ==> Plannable(catalog, x)
  }

  // The uninstalled components that one of ids reaches.
  ghost predicate Wanted(catalog: Catalog, installed: set<string>, ids: seq<string>, x: string) {
    x !in installed && exists d :: d in ids && Reaches(catalog, d, x)
  }

  // The call stack of the walk: the components being visited, each a dependency of the one before.
  ghost predicate StackOf(catalog: Catalog, stack: seq<string>, id: string) {
    IsPath(catalog, stack + [id])
  }

  ghost predicate Explains(catalog: Catalog, root: string, error: PlanError) {
    match error
    case Cycle(x) => Reaches(catalog, root, x) && Below(catalog, x, x)
    case MissingProfile(x) => Reaches(catalog, root, x) && x !in catalog
  }

  lemma StackReaches(catalog: Catalog, stack: seq<string>, id: string, i: nat)
    requires StackOf(catalog, stack, id) && i < |stack|
    ensures Below(catalog, stack[i], id)
    ensures Reaches(catalog, stack[0], stack[i])
  {
    var p := stack + [id];
    var below := p[i..];
    forall k | 0 < k < |below|
      ensures Edge(catalog, below[k - 1], below[k])
    {
      assert below[k] == p[i + k] && below[k - 1] == p[i + k - 1];
      assert Edge(catalog, p[i + k - 1], p[i + k]);
    }
    assert Connects(catalog, below, stack[i], id);
    if i > 0 {
      var above := p[..i + 1];
      forall k | 0 < k < |above|
        ensures Edge(catalog, above[k - 1], above[k])
      {
        assert above[k] == p[k] && above[k - 1] == p[k - 1];
      }
      assert Connects(catalog, above, stack[0], stack[i]);
    }
  }

  lemma WantedUnfolds(catalog: Catalog, installed: set<string>, id: string)
    requires id in catalog
    ensures forall x :: Wanted(catalog, installed, [id], x) <==>
        (x == id && id !in installed) || Wanted(catalog, installed, catalog[id], x)
    ensures Wanted(catalog, installed, catalog[id], id) ==> Below(catalog, id, id)
  {
    forall x
      ensures Wanted(catalog, installed, [id], x) <==>
        (x == id && id !in installed) || Wanted(catalog, installed, catalog[id], x)
    {
      BelowUnfolds(catalog, id, x);
      assert id in [id];
    }
    BelowUnfolds(catalog, id, id);
  }

  lemma ExtendPlan(catalog: Catalog, installed: set<string>, plan: seq<string>, id: string)
    requires SoundPlan(catalog, installed, plan) && id !in plan && id in catalog && Plannable(catalog, id)
    requires forall x :: Wanted(catalog, installed, catalog[id], x) ==> x in plan
    ensures SoundPlan(catalog, installed, plan + [id])
  {
    var longer := plan + [id];
    forall i, b | 0 <= i < |longer| && b !in installed && Below(catalog, longer[i], b)
      ensures b in longer[..i]
    {
      if i == |plan| {
        BelowUnfolds(catalog, id, b);
        assert Wanted(catalog, installed, catalog[id], b);
        assert longer[..i] == plan;
      } else {
        assert longer[..i] == plan[..i];
      }
    }
  }

  function Root(stack: seq<string>, id: string): string {
    if stack == [] then id else stack[0]
  }

  class Planner {
    const catalog: Catalog
    const installed: set<string>
    var visiting: set<string>
    var plannedIds: set<string>
    var planned: seq<string>

    constructor (catalog: Catalog, installed: set<string>)
      ensures this.catalog == catalog && this.installed == installed
      ensures visiting == {} && planned == [] && Valid()
    {
      this.catalog := catalog;
      this.installed := installed;
      visiting, plannedIds, planned := {}, {}, [];
    }

    ghost predicate Valid()
      reads this
    {
      plannedIds == Elements(planned) && SoundPlan(catalog, installed, planned)
    }

    method AppendInstallPlan(id: string, includeEvenIfInstalled: bool, ghost stack: seq<string>)
      returns (r: Option<PlanError>)
      requires Valid() && visiting == Elements(stack) && StackOf(catalog, stack, id)
      requires includeEvenIfInstalled ==> planned == [] && stack == []
      modifies this
      ensures r.None? ==> Valid() && visiting == old(visiting) && Plannable(catalog, id)
      ensures r.None? ==> |old(planned)| <= |planned| && planned[..|old(planned)|] == old(planned)
      ensures r.None? ==> forall x :: x in planned <==>
          x in old(planned) || Wanted(catalog, installed, [id], x) || (includeEvenIfInstalled && x == id)
      ensures r.None? && includeEvenIfInstalled ==> |planned| > 0 && planned[|planned| - 1] == id
      ensures r.Some? ==> Explains(catalog, Root(stack, id), r.value)
      decreases catalog.Keys - visiting, 0
    {
      if id in plannedIds {
        return None;
      }
      if id in visiting {
        ghost var i :| 0 <= i < |stack| && stack[i] == id;
        StackReaches(catalog, stack, id, i);
        return Some(Cycle(id));
      }
      visiting := visiting + {id};
      if id !in catalog {
        if stack != [] { StackReaches(catalog, stack, id, 0); }
        return Some(MissingProfile(id));
      }
      r := AppendDependencies(id, stack);
      if r.Some? {
        return;
      }
      PlannableUnfolds(catalog, id);
      assert Reaches(catalog, id, id);
      WantedUnfolds(catalog, installed, id);
      if (includeEvenIfInstalled || id !in installed) && id !in plannedIds {
        ExtendPlan(catalog, installed, planned, id);
        plannedIds := plannedIds + {id};
        planned := planned + [id];
      }
      visiting := visiting - {id};
    }

    // The loop over the profile's dependencies.
    method AppendDependencies(id: string, ghost stack: seq<string>)
      returns (r: Option<PlanError>)
      requires Valid() && id in catalog && id !in stack && StackOf(catalog, stack, id)
      requires visiting == Elements(stack) + {id}
      modifies this
      ensures r.None? ==> Valid() && visiting == old(visiting)
      ensures r.None? ==> forall d :: d in catalog[id] ==> Plannable(catalog, d)
      ensures r.None? ==> |old(planned)| <= |planned| && planned[..|old(planned)|] == old(planned)
      ensures r.None? ==> forall x :: x in planned <==>
          x in old(planned) || Wanted(catalog, installed, catalog[id], x)
      ensures r.Some? ==> Explains(catalog, Root(stack, id), r.value)
      decreases catalog.Keys - visiting, 1
    {
      ghost var deeper := stack + [id];
      assert Elements(deeper) == visiting;
      var dependencies := catalog[id];
      for k := 0 to |dependencies|
        invariant Valid() && visiting == old(visiting)
        invariant forall j :: 0 <= j < k ==> Plannable(catalog, dependencies[j])
        invariant |old(planned)| <= |planned| && planned[..|old(planned)|] == old(planned)
        invariant forall x :: x in planned <==>
            x in old(planned) || Wanted(catalog, installed, dependencies[..k], x)
      {
        r := AppendInstallPlan(dependencies[k], false, deeper);
        if r.Some? {
          return;
        }
      }
      assert dependencies[..|dependencies|] == dependencies;
      r := None;
    }
  }

  /** Planning succeeds exactly when the graph reachable from id is acyclic and complete. The plan then has no
      duplicates, holds exactly id and every uninstalled component id reaches, through installed ones too, lists each
      after everything it needs and ends with id. A refusal names a component on a cycle, or one without a profile,
      that id reaches. */
  method BuildInstallPlan(catalog: Catalog, installed: set<string>, id: string)
    returns (r: Result<seq<string>, PlanError>)
    ensures r.Ok? <==> Plannable(catalog, id)
    ensures r.Ok? ==> NoDuplicates(r.value) && PrerequisitesFirst(catalog, installed, r.value)
    ensures r.Ok? ==> forall x :: x in r.value <==> x == id || (x !in installed && Below(catalog, id, x))
    ensures r.Ok? ==> |r.value| > 0 && r.value[|r.value| - 1] == id
    ensures r.Err? ==> Explains(catalog, id, r.error)
  {
    var planner := new Planner(catalog, installed);
    var refusal := planner.AppendInstallPlan(id, true, []);
    if refusal.Some? {
      return Err(refusal.value);
    }
    assert forall x :: Wanted(catalog, installed, [id], x) <==> x !in installed && Reaches(catalog, id, x);
    return Ok(planner.planned);
  }
}
