/** Taking tracked files back out of a prefix: which files and which folders go. */
module PrefixTree {
  import opened Wrappers

  /** A path relative to the prefix, as the components Rust's `Path` gives: empty ones and any "." but a leading one are
      not among them. The prefix itself is []. */
  type Path = seq<string>

  // d is a folder on the way to p.
  predicate Above(d: Path, p: Path) {
    d < p
  }

  predicate Normal(component: string) {
    component != "" && component != "." && component != ".." && component != "/"
  }

  // ------------------------------------------------------------------ deepest first

  predicate DeepestFirst(paths: seq<Path>) {
    forall i, j :: 0 <= i < j < |paths| ==> |paths[i]| >= |paths[j]|
  }

  lemma PrependDeepest(first: Path, rest: seq<Path>)
    requires DeepestFirst(rest) && forall x :: x in rest ==> |x| <= |first|
    ensures DeepestFirst([first] + rest)
  {
    forall j | 0 <= j < |rest|
      ensures |rest[j]| <= |first|
    {
      assert rest[j] in rest;
    }
  }

  function InsertByDepth(p: Path, sorted: seq<Path>): (r: seq<Path>)
    requires DeepestFirst(sorted)
    ensures forall x :: x in r <==> x == p || x in sorted
    ensures DeepestFirst(r)
  {
    if sorted == [] then [p]
    else if |p| >= |sorted[0]| then [p] + sorted
    else
      var rest := InsertByDepth(p, sorted[1..]);
      PrependDeepest(sorted[0], rest);
      [sorted[0]] + rest
  }

  function SortByDepth(paths: seq<Path>): (r: seq<Path>)
    ensures forall x :: x in r <==> x in paths
    ensures DeepestFirst(r)
  {
    if paths == [] then [] else InsertByDepth(paths[0], SortByDepth(paths[1..]))
  }

  // ------------------------------------------------------------------- which folders go

  // Every entry lies in a folder that is there, and no path is both a file and a folder.
  ghost predicate Formed(files: set<Path>, dirs: set<Path>) {
    && [] in dirs
    && files !! dirs
    && (forall p, d :: p in files && Above(d, p) ==> d in dirs)
    && (forall p, d :: p in dirs && Above(d, p) ==> d in dirs)
  }

  ghost predicate RemovedBelow(removed: set<Path>, d: Path) {
    exists p :: p in removed && Above(d, p)
  }

  /** A folder other than the prefix goes when removed files lay below it and below every folder in it, and no other
      file lies below it. */
  ghost predicate Gone(files: set<Path>, dirs: set<Path>, removed: set<Path>, d: Path) {
    && d != [] && d in dirs
    && RemovedBelow(removed, d)
    && (forall p :: p in files && Above(d, p) ==> p in removed)
    && (forall e :: e in dirs && Above(d, e) ==> RemovedBelow(removed, e))
  }

  predicate ChildOf(d: Path, p: Path) {
    |p| == |d| + 1 && d < p
  }

  predicate Empty(files: set<Path>, dirs: set<Path>, d: Path) {
    forall p :: p in files + dirs ==> !ChildOf(d, p)
  }

  // A folder with anything below it, at any depth, has a child.
  lemma HasChild(files: set<Path>, dirs: set<Path>, d: Path, p: Path)
    requires Formed(files, dirs) && p in files + dirs && Above(d, p)
    ensures !Empty(files, dirs, d)
  {
    var child := p[..|d| + 1];
    assert child == p || Above(child, p);
    assert ChildOf(d, child);
  }

  // The tree after some files were removed and the folders that go with them, but for those on the way to `upTo`.
  ghost predicate PrunedBut(files: set<Path>, dirs: set<Path>, removed: set<Path>, upTo: Path, now: set<Path>) {
    forall d :: d in now <==> d in dirs && (d <= upTo || !Gone(files, dirs, removed, d))
  }

  ghost predicate Pruned(files: set<Path>, dirs: set<Path>, removed: set<Path>, now: set<Path>) {
    forall d :: d in now <==> d in dirs && !Gone(files, dirs, removed, d)
  }

  /** Looking at one folder's own entries, once those deeper on the way were dealt with, decides whether it goes. */
  lemma EmptyIffGone(files: set<Path>, dirs: set<Path>, removed: set<Path>, f: Path, current: Path, now: set<Path>)
    requires Formed(files, dirs) && removed <= files && f in removed
    requires current != [] && Above(current, f)
    requires Formed(files - removed, now) && PrunedBut(files, dirs, removed, current, now)
    ensures current in now
    ensures Empty(files - removed, now, current) <==> Gone(files, dirs, removed, current)
  {
    if Empty(files - removed, now, current) {
      forall p | p in files && Above(current, p)
        ensures p in removed
      {
        if p !in removed { HasChild(files - removed, now, current, p); }
      }
      forall e | e in dirs && Above(current, e)
        ensures RemovedBelow(removed, e)
      {
        if e in now { HasChild(files - removed, now, current, e); }
      }
      assert RemovedBelow(removed, current);
    } else {
      var p :| p in (files - removed) + now && ChildOf(current, p);
    }
  }

  /** What is left has no folder that the removal emptied, and every folder it did not reach into. */
  lemma NothingEmptiedIsLeft(files: set<Path>, dirs: set<Path>, removed: set<Path>, now: set<Path>)
    requires Formed(files, dirs) && removed <= files
    requires Formed(files - removed, now) && Pruned(files, dirs, removed, now)
    ensures forall d :: d in now && d != [] && RemovedBelow(removed, d) ==> !Empty(files - removed, now, d)
    ensures forall d :: d in dirs && !RemovedBelow(removed, d) ==> d in now
  {
    forall d | d in now && d != [] && RemovedBelow(removed, d)
      ensures !Empty(files - removed, now, d)
    {
      var f :| f in removed && Above(d, f);
      assert forall e :: e in dirs && e <= d ==> e == d || Above(e, d);
      EmptyIffGone(files, dirs, removed, f, d, now);
    }
  }

  // Once a folder that goes is out, the one it lay in is next.
  lemma StepUp(files: set<Path>, dirs: set<Path>, removed: set<Path>, current: Path, now: set<Path>)
    requires current != [] && PrunedBut(files, dirs, removed, current, now) && Gone(files, dirs, removed, current)
    ensures PrunedBut(files, dirs, removed, current[..|current| - 1], now - {current})
  {
    forall d | d in dirs
      ensures d in now - {current} <==> d <= current[..|current| - 1] || !Gone(files, dirs, removed, d)
    {
      assert d <= current <==> d == current || d <= current[..|current| - 1];
    }
  }

  lemma RemoveEmpty(files: set<Path>, dirs: set<Path>, d: Path)
    requires Formed(files, dirs) && d != [] && Empty(files, dirs, d)
    ensures Formed(files, dirs - {d})
  {
    forall p | p in files + dirs
      ensures !Above(d, p)
    {
      if Above(d, p) { HasChild(files, dirs, d, p); }
    }
  }

  // A file stands where a folder on the way should be; a link is one.
  predicate Blocked(files: set<Path>, p: Path) {
    exists k :: 0 < k < |p| && p[..k] in files
  }

  predicate ThroughLink(files: set<Path>, links: set<Path>, p: Path) {
    exists k :: 0 < k < |p| && p[..k] in links && p[..k] in files
  }

  predicate Strange(p: Path) {
    exists c :: c in p && !Normal(c)
  }

  /** What a listed path may be that stops the removal: a path that could leave the prefix, one that leads through a
      file or a link, or a folder that does not go with the files below it. */
  ghost predicate Stops(files: set<Path>, dirs: set<Path>, removed: set<Path>, p: Path) {
    Strange(p) || Blocked(files, p) || (p in dirs && !Gone(files, dirs, removed, p))
  }

  // Deepest first, everything that bears on a path comes before it in the list.
  lemma DecidedSoFar(files: set<Path>, dirs: set<Path>, sorted: seq<Path>, k: nat, now: set<Path>)
    requires Formed(files, dirs) && DeepestFirst(sorted) && k < |sorted|
    requires Pruned(files, dirs, Elements(sorted[..k]) * files, now)
    ensures
      var p, left := sorted[k], files - Elements(sorted[..k]) * files;
      && (Stops(files, dirs, Elements(sorted) * files, p) <==> Strange(p) || Blocked(left, p) || p in now)
      && (p in left ==> !Blocked(left, p) && p !in now)
  {
    var p := sorted[k];
    var some := Elements(sorted[..k]) * files;
    forall x | x in sorted && Above(p, x)
      ensures x in sorted[..k]
    {
      var i :| 0 <= i < |sorted| && sorted[i] == x;
    }
    forall j | 0 < j < |p|
      ensures p[..j] !in sorted[..k]
    {
      assert forall i :: 0 <= i < k ==> |sorted[i]| >= |p|;
    }
    forall j | 0 < j < |p| && p in files
      ensures p[..j] !in files
    {
      assert Above(p[..j], p);
    }
  }

  datatype Outcome = Done | Refused(path: Path) | Failed(path: Path)

  class Tree {
    var files: set<Path>
    var dirs: set<Path>
    // Which of the files are symbolic links.
    const links: set<Path>

    constructor (files: set<Path>, dirs: set<Path>, links: set<Path>)
      requires Formed(files, dirs)
      ensures this.files == files && this.dirs == dirs && this.links == links && Valid()
    {
      this.files, this.dirs, this.links := files, dirs, links;
    }

    ghost predicate Valid()
      reads this
    {
      Formed(files, dirs)
    }

    /** Removes the folders above a file just removed, from the deepest up, while they are empty. */
    method PruneEmptyParentDirs(f: Path, ghost files0: set<Path>, ghost dirs0: set<Path>, ghost removed: set<Path>)
      requires Valid() && Formed(files0, dirs0) && removed <= files0 && f in removed && f != []
      requires files == files0 - removed && PrunedBut(files0, dirs0, removed, f[..|f| - 1], dirs)
      modifies this`dirs
      ensures Valid() && Pruned(files0, dirs0, removed, dirs)
    {
      var k := |f| - 1;
      while k > 0
        invariant 0 <= k < |f|
        invariant Valid() && PrunedBut(files0, dirs0, removed, f[..k], dirs)
      {
        var current := f[..k];
        EmptyIffGone(files0, dirs0, removed, f, current, dirs);
        if !Empty(files, dirs, current) {
          return;
        }
        RemoveEmpty(files, dirs, current);
        StepUp(files0, dirs0, removed, current, dirs);
        assert current[..k - 1] == f[..k - 1];
        dirs := dirs - {current};
        k := k - 1;
      }
    }

    // Removes one file, and the folders it leaves empty.
    method RemoveFile(p: Path, ghost files0: set<Path>, ghost dirs0: set<Path>, ghost removed: set<Path>)
      requires Valid() && p in files && Formed(files0, dirs0) && removed <= files0
      requires files == files0 - removed && Pruned(files0, dirs0, removed, dirs)
      modifies this
      ensures Valid() && files == files0 - (removed + {p}) && Pruned(files0, dirs0, removed + {p}, dirs)
    {
      files := files - {p};
      PruneEmptyParentDirs(p, files0, dirs0, removed + {p});
    }

    /** Removes tracked files, deepest first. Nothing but listed files goes, and of the folders exactly those the
        removed files leave empty; the prefix itself stays. It ends early exactly when a listed path stops it. */
    method RemoveCreatedFiles(listed: seq<Path>)
      returns (r: Outcome, ghost removed: set<Path>)
      requires Valid()
      modifies this
      ensures Valid() && removed <= Elements(listed) * old(files)
      ensures files == old(files) - removed && Pruned(old(files), old(dirs), removed, dirs)
      ensures r.Done? ==> removed == Elements(listed) * old(files)
      ensures r.Refused? ==> Strange(r.path) || ThroughLink(old(files), links, r.path)
      ensures r.Failed? ==> !Strange(r.path) && (r.path in old(dirs) || Blocked(old(files), r.path))
      ensures forall p, c :: p in removed && c in p ==> c != ".." && c != "." && c != "/" && c != ""
      ensures r.Done? ==> forall p :: p in listed ==>
        && (forall c :: c in p ==> c != ".." && c != "." && c != "/" && c != "")
        && (forall k :: 0 < k < |p| ==> p[..k] !in old(files))
        && p !in files && p !in dirs
      ensures r.Refused? ==>
        || (exists c :: c in r.path && (c == ".." || c == "." || c == "/" || c == ""))
        || (exists k :: 0 < k < |r.path| && r.path[..k] in old(files) && r.path[..k] in links)
      ensures r.Done? <==>
        forall p :: p in listed ==> !Stops(old(files), old(dirs), Elements(listed) * old(files), p)
    {
      var sorted := SortByDepth(listed);
      assert Elements(sorted) == Elements(listed);
      removed := {};
      for k := 0 to |sorted|
        invariant Valid() && removed == Elements(sorted[..k]) * old(files)
        invariant files == old(files) - removed && Pruned(old(files), old(dirs), removed, dirs)
        invariant forall i :: 0 <= i < k ==> !Stops(old(files), old(dirs), Elements(listed) * old(files), sorted[i])
      {
        var p := sorted[k];
        DecidedSoFar(old(files), old(dirs), sorted, k, dirs);
        assert sorted[..k + 1] == sorted[..k] + [p];
        assert p in listed;
        if Strange(p) || ThroughLink(files, links, p) {
          return Refused(p), removed;
        }
        if p in files {
          RemoveFile(p, old(files), old(dirs), removed);
          removed := removed + {p};
        } else if p in dirs || Blocked(files, p) {
          return Failed(p), removed;
        }
      }
      assert sorted[..|sorted|] == sorted;
      r := Done;
    }
  }
}
