/** What an install changed in a prefix, from a snapshot before and one after, and what rolling it back leaves. */
module Snapshots {
  import opened Wrappers
  import opened PrefixTree

  /** A file's length and modification time: an edit that keeps both is not seen. */
  datatype Fingerprint = Fingerprint(length: nat, modified: nat)

  /** The files under watch in the prefix, and those Proton keeps up to date itself. */
  datatype Snapshot = Snapshot(files: map<Path, Fingerprint>, protonFiles: set<Path>)

  predicate Protons(before: Snapshot, after: Snapshot, p: Path) {
    p in before.protonFiles || p in after.protonFiles
  }

  function Created(before: Snapshot, after: Snapshot): set<Path> {
    set p | p in after.files && p !in before.files && !Protons(before, after, p)
  }

  // An earlier file is as it was: unchanged, or Proton's and of the same length; one of Proton's may be gone.
  predicate Untouched(before: Snapshot, after: Snapshot, p: Path)
    requires p in before.files
  {
    if p !in after.files then p in before.protonFiles
    else before.files[p] == after.files[p] ||
         (Protons(before, after, p) && before.files[p].length == after.files[p].length)
  }

  /** An earlier file is gone, has another length, or was written again at another time; of Proton's own one may be gone
      and may be written again. */
  predicate Edited(before: Snapshot, after: Snapshot, p: Path)
    requires p in before.files
  {
    if p !in after.files then p !in before.protonFiles
    else before.files[p].length != after.files[p].length ||
         (before.files[p].modified != after.files[p].modified && p !in before.protonFiles && p !in after.protonFiles)
  }

  lemma SeenExactly(before: Snapshot, after: Snapshot)
    ensures (forall p :: p in before.files ==> Untouched(before, after, p)) <==>
      !exists p :: p in before.files && Edited(before, after, p)
  {
    forall p | p in before.files
      ensures Untouched(before, after, p) <==> !Edited(before, after, p)
    {
    }
  }

  /** The component created exactly the new files that are not Proton's, and touched none of the earlier ones exactly
      when each of those that is not Proton's is still there unchanged and each of Proton's that is still there kept
      its length. */
  method DiffSnapshots(before: Snapshot, after: Snapshot) returns (created: set<Path>, touched: bool)
    ensures created == Created(before, after)
    ensures !touched <==> forall p :: p in before.files ==> Untouched(before, after, p)
    ensures forall p :: p in created <==>
      p in after.files && p !in before.files && p !in before.protonFiles && p !in after.protonFiles
    ensures touched <==> exists p :: p in before.files && Edited(before, after, p)
  {
    SeenExactly(before, after);
    created, touched := {}, false;
    var rest := after.files.Keys;
    while rest != {}
      invariant rest <= after.files.Keys
      invariant created == Created(before, after) - rest
      invariant !touched <==>
        forall p :: p in before.files && p in after.files && p !in rest ==> Untouched(before, after, p)
    {
      var p :| p in rest;
      rest := rest - {p};
      var proton := Protons(before, after, p);
      if p !in before.files {
        if !proton {
          created := created + {p};
        }
      } else if proton && before.files[p].length == after.files[p].length {
      } else if before.files[p] != after.files[p] {
        assert !Untouched(before, after, p);
        touched := true;
      }
    }
    if exists p :: p in before.files && p !in after.files && p !in before.protonFiles {
      touched := true;
    }
  }

  // The snapshot kept in a pending install's file holds the earlier files only.
  function Pending(before: Snapshot): Snapshot {
    before.(protonFiles := {})
  }

  /** The whole rollback on the tree: unless a path has a component that is no plain name, exactly the created files go,
      with the folders left empty, so no file is left that was neither there before nor Proton's. */
  method RollBack(tree: Tree, before: Snapshot, after: Snapshot) returns (r: Outcome)
    requires tree.Valid()
    requires after.files.Keys <= tree.files
    modifies tree
    ensures tree.Valid()
    ensures r.Done? <==> forall p :: p in Created(before, after) ==> !Strange(p)
    ensures r.Done? ==> tree.files == old(tree.files) - Created(before, after)
    ensures r.Done? ==> Pruned(old(tree.files), old(tree.dirs), Created(before, after), tree.dirs)
    ensures r.Done? ==>
      forall p :: p in after.files && p in tree.files ==> p in before.files || Protons(before, after, p)
    ensures forall p :: p in before.files && p in old(tree.files) ==> p in tree.files
  {
    var created, _ := DiffSnapshots(before, after);
    var listed := InSomeOrder(created);
    assert forall p :: p in listed <==> p in Elements(listed);
    forall p | p in tree.files
      ensures Stops(tree.files, tree.dirs, created, p) <==> Strange(p)
    {
      assert forall j :: 0 < j < |p| ==> Above(p[..j], p);
    }
    assert created * tree.files == created;
    ghost var removed;
    r, removed := tree.RemoveCreatedFiles(listed);
    assert Elements(listed) == created;
  }

  /** What the next daemon does about an install it finds unfinished: the kept snapshot has no list of Proton's files,
      so those of the prefix as it is now decide. Nothing is left that was neither there before nor is Proton's now.
      It takes what the first daemon would have exactly when no new file was Proton's before and no longer is. */
  method RollBackInterrupted(tree: Tree, before: Snapshot, now: Snapshot) returns (r: Outcome)
    requires tree.Valid()
    requires now.files.Keys <= tree.files
    modifies tree
    ensures tree.Valid()
    ensures r.Done? <==> forall p :: p in Created(Pending(before), now) ==> !Strange(p)
    ensures r.Done? ==> forall p :: p in now.files && p in tree.files ==> p in before.files || p in now.protonFiles
    ensures r.Done? ==> tree.files == old(tree.files) - Created(Pending(before), now)
    ensures r.Done? ==>
      (tree.files == old(tree.files) - Created(before, now) <==>
       forall p :: p in now.files && p in before.protonFiles ==> p in before.files || p in now.protonFiles)
    ensures forall p :: p in before.files && p in old(tree.files) ==> p in tree.files
  {
    r := RollBack(tree, Pending(before), now);
    assert Created(Pending(before), now) == Created(before, now) +
      (set p | p in now.files && p !in before.files && p in before.protonFiles && p !in now.protonFiles);
  }

  /** A daemon that stops between recording a component and deleting its pending file has the next one take the
      recorded files away again, all but those that are Proton's by then; the record stays. */
  method RecoverRecorded(tree: Tree, before: Snapshot, after: Snapshot, now: Snapshot)
    returns (r: Outcome, ghost recorded: set<Path>)
    requires tree.Valid()
    requires now.files.Keys <= tree.files
    modifies tree
    ensures recorded == Created(before, after)
    ensures r.Done? ==> forall p :: p in recorded && p in now.files ==> (p in tree.files <==> p in now.protonFiles)
  {
    recorded := Created(before, after);
    r := RollBackInterrupted(tree, before, now);
  }

  method InSomeOrder(paths: set<Path>) returns (listed: seq<Path>)
    ensures Elements(listed) == paths
  {
    listed := [];
    var rest := paths;
    while rest != {}
      invariant rest <= paths && Elements(listed) == paths - rest
    {
      var p :| p in rest;
      assert Elements(listed + [p]) == Elements(listed) + {p};
      listed := listed + [p];
      rest := rest - {p};
    }
  }
}
