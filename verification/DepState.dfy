/** What Leyen records about the components installed in a prefix. */
module DepState {

  /** One component's record. The sorted, duplicate-free lists of the state file are sets here. */
  datatype Record = Record(
    dependencies: set<string>,
    createdFiles: set<string>,
    touchedExistingFiles: bool,
    dllOverrides: set<string>,
    registeredDlls: set<string>,
    winetricksVerbs: set<string>,
    uninstallEntries: set<string>)
  {
    predicate HasRemovableChanges() {
      createdFiles != {} || dllOverrides != {} || registeredDlls != {} || uninstallEntries != {}
    }

    predicate IsPrefixIntegration() {
      touchedExistingFiles && !HasRemovableChanges()
    }

    // Nothing was recorded but that the component is there.
    predicate OwnsNothing() {
      !touchedExistingFiles && !HasRemovableChanges()
    }

    function Merged(dependencies: set<string>, delta: Record): Record {
      Record(
        dependencies,
        createdFiles + delta.createdFiles,
        touchedExistingFiles || delta.touchedExistingFiles,
        dllOverrides + delta.dllOverrides,
        registeredDlls + delta.registeredDlls,
        winetricksVerbs + delta.winetricksVerbs,
        uninstallEntries + delta.uninstallEntries)
    }
  }

  const EMPTY := Record({}, {}, false, {}, {}, {}, {})

  type Installed = map<string, Record>

  datatype Profile = Profile(dependencies: seq<string>, provided: seq<string>, verbs: set<string>)

  datatype Catalog = Catalog(profiles: map<string, Profile>, knownOverrides: string -> set<string>)
  {
    function Dependencies(): map<string, seq<string>> {
      map id | id in profiles :: profiles[id].dependencies
    }

    function Provided(id: string): seq<string> {
      if id in profiles then profiles[id].provided else []
    }

    function Verbs(id: string): set<string> {
      if id in profiles then profiles[id].verbs else {}
    }
  }

  function Upserted(installed: Installed, id: string, dependencies: set<string>, delta: Record): Installed {
    installed[id := (if id in installed then installed[id] else EMPTY).Merged(dependencies, delta)]
  }

  /** The installed components that stand in the way of removing id. */
  function Dependents(catalog: Catalog, installed: Installed, id: string): set<string> {
    set x | x in installed && x != id &&
      (id in installed[x].dependencies || (x in catalog.Provided(id) && installed[x].IsPrefixIntegration()))
  }

  /** What counts as set by a component: the overrides of its record, unless its recipe runs winetricks verbs of which
      the record has none. Then it is what those verbs are known to set. */
  function SetOverrides(catalog: Catalog, id: string, record: Record): set<string> {
    if catalog.Verbs(id) == {} || record.winetricksVerbs != {} then record.dllOverrides
    else set verb, dll | verb in catalog.Verbs(id) && dll in catalog.knownOverrides(verb) :: dll
  }

  ghost predicate AnotherSet(catalog: Catalog, installed: Installed, id: string, dll: string) {
    exists x :: x in installed && x != id && dll in SetOverrides(catalog, x, installed[x])
  }

  function OverridesToRemove(catalog: Catalog, installed: Installed, id: string): (dlls: set<string>)
    ensures id !in installed ==> dlls == {}
    ensures id in installed ==> forall dll :: dll in dlls <==>
        dll in SetOverrides(catalog, id, installed[id]) && !AnotherSet(catalog, installed, id, dll)
  {
    if id !in installed then {} else
      set dll | dll in SetOverrides(catalog, id, installed[id]) &&
        !exists x :: x in installed && x != id && dll in SetOverrides(catalog, x, installed[x])
  }

  /** Taking a component's overrides out of the registry leaves every other installed component all it set, and of the
      removed one's exactly what another set too. */
  lemma TakesItsOwnOnly(catalog: Catalog, installed: Installed, id: string, registry: set<string>)
    requires id in installed
    ensures
      var left := registry - OverridesToRemove(catalog, installed, id);
      && (forall x, dll :: x in installed && x != id && dll in SetOverrides(catalog, x, installed[x]) ==>
            (dll in left <==> dll in registry))
      && (forall dll :: dll in registry && dll in SetOverrides(catalog, id, installed[id]) ==>
            (dll in left <==> AnotherSet(catalog, installed, id, dll)))
      && (forall dll :: dll in registry && dll !in left ==> dll in SetOverrides(catalog, id, installed[id]))
  {
    forall x, dll | x in installed && x != id && dll in SetOverrides(catalog, x, installed[x])
      ensures AnotherSet(catalog, installed, id, dll)
    {
    }
  }
}
