/** The order the sandbox mounts its folders in: parents first, so that the mount
    a path ends up in is the deepest one, whatever order they were asked in. */
module Mounts {
  import opened Wrappers

  /** A path as its components; an absolute one starts with the root component. */
  type Path = seq<string>

  predicate StartsWith(path: Path, base: Path) {
    base <= path
  }

  // --------------------------------------------------------------- order of paths

  predicate NameLess(a: string, b: string) {
    if b == [] then false
    else if a == [] then true
    else a[0] < b[0] || (a[0] == b[0] && NameLess(a[1..], b[1..]))
  }

  // The names agree up to `k`, and there the first one ends or has the smaller character.
  predicate LessAt(a: string, b: string, k: nat) {
    k <= |a| && k < |b| && a[..k] == b[..k] && (k < |a| ==> a[k] < b[k])
  }

  /** One name comes before another exactly when it does at the first place where they differ. */
  lemma {:induction false} NameLessExactly(a: string, b: string)
    ensures NameLess(a, b) <==> exists k: nat :: LessAt(a, b, k)
    decreases |a|
  {
    if a == [] && b != [] {
      assert LessAt(a, b, 0);
    } else if a != [] && b != [] {
      NameLessExactly(a[1..], b[1..]);
      if a[0] < b[0] {
        assert LessAt(a, b, 0);
      } else if k: nat :| LessAt(a[1..], b[1..], k) && a[0] == b[0] {
        assert a[..k + 1] == [a[0]] + a[1..][..k] && b[..k + 1] == [b[0]] + b[1..][..k];
        assert LessAt(a, b, k + 1);
      }
      if k: nat :| LessAt(a, b, k) && k > 0 {
        assert a[..k][0] == b[..k][0];
        assert a[1..][..k - 1] == a[..k][1..] && b[1..][..k - 1] == b[..k][1..];
        assert LessAt(a[1..], b[1..], k - 1);
      }
    }
  }

  /** Component by component, a path before what lies under it. */
  predicate PathLe(a: Path, b: Path) {
    if a == [] then true
    else if b == [] then false
    else NameLess(a[0], b[0]) || (a[0] == b[0] && PathLe(a[1..], b[1..]))
  }

  lemma {:induction false} NameOrder(a: string, b: string, c: string)
    ensures !NameLess(a, a)
    ensures a == b || NameLess(a, b) || NameLess(b, a)
    ensures NameLess(a, b) && NameLess(b, c) ==> NameLess(a, c)
    decreases |a|
  {
    if a != [] {
      NameOrder(a[1..], if b == [] then b else b[1..], if c == [] then c else c[1..]);
      assert a == [a[0]] + a[1..];
      assert b != [] ==> b == [b[0]] + b[1..];
    }
  }

  lemma {:induction false} PathOrder(a: Path, b: Path, c: Path)
    ensures PathLe(a, b) || PathLe(b, a)
    ensures PathLe(a, b) && PathLe(b, c) ==> PathLe(a, c)
    decreases |a|
  {
    if a != [] && b != [] {
      NameOrder(a[0], b[0], if c == [] then [] else c[0]);
      PathOrder(a[1..], b[1..], if c == [] then c else c[1..]);
    }
  }

  /** Of two paths above the same one, the order is the depth. */
  lemma {:induction false} PrefixOrder(a: Path, b: Path, path: Path)
    requires StartsWith(path, a) && StartsWith(path, b)
    ensures PathLe(a, b) <==> |a| <= |b|
    decreases |path|
  {
    if a != [] && b != [] {
      NameOrder(a[0], b[0], a[0]);
      PrefixOrder(a[1..], b[1..], path[1..]);
    }
  }

  // ------------------------------------------------------------------- the mounts

  datatype Mode = Bind | BindTry | RoBind | RoBindTry

  /** `origin` tells the folders a game asks for from what Leyen mounts itself. */
  datatype Origin = Shared | Own

  datatype Mount = Mount(mode: Mode, source: Path, target: Path, origin: Origin)

  predicate SortedByTarget(mounts: seq<Mount>) {
    forall i, j | 0 <= i < j < |mounts| :: PathLe(mounts[i].target, mounts[j].target)
  }

  /** Puts `mount` after every one that does not come later than it. */
  function Insert(mounts: seq<Mount>, mount: Mount): seq<Mount> {
    if mounts == [] then [mount]
    else
      var last := |mounts| - 1;
      if PathLe(mounts[last].target, mount.target) then mounts + [mount]
      else Insert(mounts[..last], mount) + [mounts[last]]
  }

  /** The stable sort by target. */
  function SortByTarget(mounts: seq<Mount>): seq<Mount> {
    if mounts == [] then []
    else Insert(SortByTarget(mounts[..|mounts| - 1]), mounts[|mounts| - 1])
  }

  lemma {:induction false} InsertSorted(mounts: seq<Mount>, mount: Mount)
    requires SortedByTarget(mounts)
    ensures SortedByTarget(Insert(mounts, mount))
    ensures multiset(Insert(mounts, mount)) == multiset(mounts) + multiset{mount}
  {
    if mounts != [] {
      var last := |mounts| - 1;
      assert mounts == mounts[..last] + [mounts[last]];
      if PathLe(mounts[last].target, mount.target) {
        forall i | 0 <= i < last ensures PathLe(mounts[i].target, mount.target) {
          PathOrder(mounts[i].target, mounts[last].target, mount.target);
        }
      } else {
        PathOrder(mounts[last].target, mount.target, []);
        var front := Insert(mounts[..last], mount);
        InsertSorted(mounts[..last], mount);
        forall i | 0 <= i < |front| ensures PathLe(front[i].target, mounts[last].target) {
          assert front[i] in multiset(front);
          assert front[i] == mount || front[i] in mounts[..last];
        }
      }
    }
  }

  lemma SortStep(front: seq<Mount>, sorted: seq<Mount>, mount: Mount)
    requires SortedByTarget(sorted) && multiset(sorted) == multiset(front)
    ensures SortedByTarget(Insert(sorted, mount)) && multiset(Insert(sorted, mount)) == multiset(front + [mount])
  {
    InsertSorted(sorted, mount);
  }

  lemma {:induction false} SortSorts(mounts: seq<Mount>)
    ensures SortedByTarget(SortByTarget(mounts))
    ensures multiset(SortByTarget(mounts)) == multiset(mounts)
  {
    if mounts != [] {
      var last := |mounts| - 1;
      SortSorts(mounts[..last]);
      SortStep(mounts[..last], SortByTarget(mounts[..last]), mounts[last]);
      assert mounts == mounts[..last] + [mounts[last]];
    }
  }

  // ------------------------------------------------------------ what a path sees

  /** A `-try` mount is skipped when its source is missing. */
  predicate Present(mount: Mount, exist: set<Path>) {
    mount.mode in {Bind, RoBind} || mount.source in exist
  }

  predicate Takes(mount: Mount, exist: set<Path>, path: Path) {
    Present(mount, exist) && StartsWith(path, mount.target)
  }

  /** The mount `path` ends up in when they are mounted in this order: the last
      one that covers it. */
  function Resolve(mounts: seq<Mount>, exist: set<Path>, path: Path): Option<Mount> {
    if mounts == [] then None
    else if Takes(mounts[|mounts| - 1], exist, path) then Some(mounts[|mounts| - 1])
    else Resolve(mounts[..|mounts| - 1], exist, path)
  }

  /** The deepest one that covers it, of two as deep the later asked for. */
  ghost predicate IsDeepest(mounts: seq<Mount>, exist: set<Path>, path: Path, i: nat) {
    && i < |mounts| && Takes(mounts[i], exist, path)
    && forall j | 0 <= j < |mounts| && Takes(mounts[j], exist, path) ::
         |mounts[j].target| < |mounts[i].target| || (|mounts[j].target| == |mounts[i].target| && j <= i)
  }

  /** What the path sees, `seen` so far, once `mount` is asked for too. */
  function Later(seen: Option<Mount>, mount: Mount, exist: set<Path>, path: Path): Option<Mount> {
    if Takes(mount, exist, path) && (seen.None? || |seen.value.target| <= |mount.target|)
    then Some(mount) else seen
  }

  ghost predicate IsSeen(mounts: seq<Mount>, exist: set<Path>, path: Path, seen: Option<Mount>) {
    match seen
    case None => forall i | 0 <= i < |mounts| :: !Takes(mounts[i], exist, path)
    case Some(m) => exists i: nat :: IsDeepest(mounts, exist, path, i) && mounts[i] == m
  }

  lemma SeenLater(front: seq<Mount>, mount: Mount, exist: set<Path>, path: Path, seen: Option<Mount>)
    requires IsSeen(front, exist, path, seen)
    ensures IsSeen(front + [mount], exist, path, Later(seen, mount, exist, path))
  {
    var mounts := front + [mount];
    if Later(seen, mount, exist, path) != seen {
      assert IsDeepest(mounts, exist, path, |front|);
    } else if seen.Some? {
      var i: nat :| IsDeepest(front, exist, path, i) && front[i] == seen.value;
      if Takes(mount, exist, path) && |seen.value.target| <= |mount.target| {
        assert IsDeepest(mounts, exist, path, |front|);
      } else {
        assert IsDeepest(mounts, exist, path, i);
      }
    }
  }

  /** Where a stable insertion leaves what a path sees. */
  lemma {:induction false} InsertResolve(mounts: seq<Mount>, mount: Mount, exist: set<Path>, path: Path)
    requires SortedByTarget(mounts)
    ensures Resolve(Insert(mounts, mount), exist, path)
         == Later(Resolve(mounts, exist, path), mount, exist, path)
    ensures Resolve(mounts, exist, path).Some? ==>
              Resolve(mounts, exist, path).value in mounts && Takes(Resolve(mounts, exist, path).value, exist, path)
  {
    if mounts != [] {
      var last := |mounts| - 1;
      var end, front := mounts[last], mounts[..last];
      InsertResolve(front, mount, exist, path);
      var seen := Resolve(mounts, exist, path);
      if PathLe(end.target, mount.target) {
        assert (mounts + [mount])[..|mounts|] == mounts;
        if seen.Some? && Takes(mount, exist, path) {
          PathOrder(seen.value.target, end.target, mount.target);
          PathOrder(end.target, end.target, []);
          PrefixOrder(seen.value.target, mount.target, path);
        }
      } else {
        assert (Insert(front, mount) + [end])[..|Insert(front, mount)|] == Insert(front, mount);
        if Takes(end, exist, path) && Takes(mount, exist, path) {
          PrefixOrder(end.target, mount.target, path);
        }
      }
    }
  }

  /** After the sort, what a path ends up in is its deepest mount, for any set of
      folders that exist; and a path no mount covers ends up in none. */
  lemma {:induction false} DeepestMountWins(mounts: seq<Mount>, exist: set<Path>, path: Path)
    ensures IsSeen(mounts, exist, path, Resolve(SortByTarget(mounts), exist, path))
  {
    if mounts != [] {
      var front, mount := mounts[..|mounts| - 1], mounts[|mounts| - 1];
      DeepestMountWins(front, exist, path);
      SortSorts(front);
      InsertResolve(SortByTarget(front), mount, exist, path);
      SeenLater(front, mount, exist, path, Resolve(SortByTarget(front), exist, path));
      assert mounts == front + [mount];
    }
  }

  // ------------------------------------------------------------- the sandbox's list

  datatype Share = Share(path: Path, writable: bool)

  datatype Request = Request(prefix: Path, shares: seq<Share>, proton: Option<Path>)

  datatype Host = Host(home: Path, umuWritable: seq<Path>, umuReadOnly: seq<Path>)

  const LEYEN := ".leyen"

  function ShareMounts(prefix: Path, shares: seq<Share>): seq<Mount> {
    if shares == [] then []
    else
      var share := shares[|shares| - 1];
      ShareMounts(prefix, shares[..|shares| - 1])
      + if StartsWith(share.path, prefix) then []
        else [Mount(if share.writable then BindTry else RoBindTry, share.path, share.path, Shared)]
  }

  function OwnMounts(mode: Mode, paths: seq<Path>): seq<Mount> {
    seq(|paths|, i requires 0 <= i < |paths| => Mount(mode, paths[i], paths[i], Own))
  }

  /** The mounts in the order they are asked for. `proton` is a Proton given by an
      absolute path. */
  function AskedFor(request: Request, host: Host): seq<Mount> {
    var prefix := request.prefix;
    var leyen := prefix + [LEYEN];
    ShareMounts(prefix, request.shares)
    + [Mount(Bind, prefix, prefix, Own),
       Mount(RoBind, leyen, leyen, Own),
       Mount(Bind, leyen + ["cache"], host.home + [".cache"], Own)]
    + OwnMounts(BindTry, host.umuWritable)
    + OwnMounts(RoBindTry, host.umuReadOnly)
    + if request.proton.Some? then OwnMounts(RoBindTry, [request.proton.value]) else []
  }

  /** The mounts in the order they are made. */
  method OrderedMounts(request: Request, host: Host) returns (mounts: seq<Mount>)
    ensures mounts == SortByTarget(AskedFor(request, host))
    ensures SharesMounted(request, mounts) && OwnMounted(request, host, mounts) && SortedByTarget(mounts)
  {
    var prefix := request.prefix;
    mounts := [];
    for i := 0 to |request.shares|
      invariant mounts == ShareMounts(prefix, request.shares[..i])
    {
      var share := request.shares[i];
      assert request.shares[..i + 1][..i] == request.shares[..i];
      if !StartsWith(share.path, prefix) {
        mounts := mounts + [Mount(if share.writable then BindTry else RoBindTry, share.path, share.path, Shared)];
      }
    }
    assert request.shares[..|request.shares|] == request.shares;
    mounts := mounts + [Mount(Bind, prefix, prefix, Own)];
    var leyen := prefix + [LEYEN];
    mounts := mounts + [Mount(RoBind, leyen, leyen, Own)];
    mounts := mounts + [Mount(Bind, leyen + ["cache"], host.home + [".cache"], Own)];
    mounts := PushOwn(mounts, BindTry, host.umuWritable);
    mounts := PushOwn(mounts, RoBindTry, host.umuReadOnly);
    if request.proton.Some? {
      mounts := PushOwn(mounts, RoBindTry, [request.proton.value]);
    }
    assert mounts == AskedFor(request, host);
    mounts := SortByTarget(mounts);
    MadeListed(request, host);
  }

  method PushOwn(before: seq<Mount>, mode: Mode, paths: seq<Path>) returns (mounts: seq<Mount>)
    ensures mounts == before + OwnMounts(mode, paths)
  {
    mounts := before;
    for i := 0 to |paths|
      invariant mounts == before + OwnMounts(mode, paths)[..i]
    {
      mounts := mounts + [Mount(mode, paths[i], paths[i], Own)];
    }
  }

  lemma {:induction false} SharesOutsidePrefix(prefix: Path, shares: seq<Share>)
    ensures forall m | m in ShareMounts(prefix, shares) :: !StartsWith(m.target, prefix)
  {
    if shares != [] { SharesOutsidePrefix(prefix, shares[..|shares| - 1]); }
  }

  /** No path inside the prefix ends up in a folder a game asked for: it ends up
      in the prefix or in something Leyen mounts inside it. */
  lemma PrefixIsNotShadowed(request: Request, host: Host, exist: set<Path>, path: Path)
    requires StartsWith(path, request.prefix)
    ensures var seen := Resolve(SortByTarget(AskedFor(request, host)), exist, path);
            seen.Some? && seen.value.origin == Own && StartsWith(seen.value.target, request.prefix)
  {
    var mounts, n := AskedFor(request, host), |ShareMounts(request.prefix, request.shares)|;
    DeepestMountWins(mounts, exist, path);
    assert mounts[n] == Mount(Bind, request.prefix, request.prefix, Own);
    assert Takes(mounts[n], exist, path);
    var m := Resolve(SortByTarget(mounts), exist, path).value;
    var i: nat :| IsDeepest(mounts, exist, path, i) && mounts[i] == m;
    assert StartsWith(m.target, request.prefix);
    assert i < n ==> m in ShareMounts(request.prefix, request.shares);
    SharesOutsidePrefix(request.prefix, request.shares);
  }

  // ----------------------------------------------------------- what a path may write, and where

  predicate Writable(m: Mount) {
    m.mode == Bind || m.mode == BindTry
  }

  /** A folder asked for outside the prefix is mounted where it is, writable exactly when that was asked, and nothing
      else is mounted as asked for. */
  ghost predicate SharesMounted(request: Request, mounts: seq<Mount>) {
    && (forall share | share in request.shares && !(request.prefix <= share.path) ::
          Mount(if share.writable then BindTry else RoBindTry, share.path, share.path, Shared) in mounts)
    && forall m | m in mounts && m.origin == Shared ::
         exists share | share in request.shares ::
           && !(request.prefix <= share.path) && m.target == share.path && m.source == share.path
           && m.mode == if share.writable then BindTry else RoBindTry
  }

  /** What Leyen mounts itself: the prefix, its own folder in it read-only, the home's cache from there, and the
      runtime's and a given Proton's folders where they are. */
  ghost predicate OwnMounted(request: Request, host: Host, mounts: seq<Mount>) {
    forall m: Mount {:trigger m in mounts} | m.origin == Own :: (m in mounts <==>
      || (m.target == m.source == request.prefix && m.mode == Bind)
      || (m.target == m.source == request.prefix + [".leyen"] && m.mode == RoBind)
      || (m.target == host.home + [".cache"] && m.source == request.prefix + [".leyen", "cache"] && m.mode == Bind)
      || (m.target == m.source && m.target in host.umuWritable && m.mode == BindTry)
      || (m.target == m.source && m.target in host.umuReadOnly && m.mode == RoBindTry)
      || (m.target == m.source && request.proton == Some(m.target) && m.mode == RoBindTry))
  }

  lemma {:induction false} SharesListed(prefix: Path, shares: seq<Share>, m: Mount)
    ensures m in ShareMounts(prefix, shares) <==> exists share | share in shares ::
              && !(prefix <= share.path)
              && m == Mount(if share.writable then BindTry else RoBindTry, share.path, share.path, Shared)
  {
    if shares != [] {
      var front, last := shares[..|shares| - 1], shares[|shares| - 1];
      SharesListed(prefix, front, m);
      assert shares == front + [last];
    }
  }

  lemma OwnListed(mode: Mode, paths: seq<Path>, m: Mount)
    ensures m in OwnMounts(mode, paths) <==> m.target in paths && m == Mount(mode, m.target, m.target, Own)
  {
    if m.target in paths && m == Mount(mode, m.target, m.target, Own) {
      var i :| 0 <= i < |paths| && paths[i] == m.target;
      assert OwnMounts(mode, paths)[i] == m;
    }
  }

  lemma AskedListed(request: Request, host: Host)
    ensures SharesMounted(request, AskedFor(request, host)) && OwnMounted(request, host, AskedFor(request, host))
  {
    var proton := if request.proton.Some? then [request.proton.value] else [];
    forall m: Mount
      ensures m in AskedFor(request, host) <==>
        || m in ShareMounts(request.prefix, request.shares)
        || m == Mount(Bind, request.prefix, request.prefix, Own)
        || m == Mount(RoBind, request.prefix + [".leyen"], request.prefix + [".leyen"], Own)
        || m == Mount(Bind, request.prefix + [".leyen", "cache"], host.home + [".cache"], Own)
        || m in OwnMounts(BindTry, host.umuWritable) || m in OwnMounts(RoBindTry, host.umuReadOnly)
        || m in OwnMounts(RoBindTry, proton)
    {
      assert request.prefix + [".leyen"] + ["cache"] == request.prefix + [".leyen", "cache"];
      assert OwnMounts(RoBindTry, []) == [];
    }
    forall m: Mount
      ensures m in ShareMounts(request.prefix, request.shares) <==> exists share | share in request.shares ::
        && !(request.prefix <= share.path)
        && m == Mount(if share.writable then BindTry else RoBindTry, share.path, share.path, Shared)
    {
      SharesListed(request.prefix, request.shares, m);
    }
    forall m: Mount
      ensures m in OwnMounts(BindTry, host.umuWritable) <==>
        m.target in host.umuWritable && m == Mount(BindTry, m.target, m.target, Own)
      ensures m in OwnMounts(RoBindTry, host.umuReadOnly) <==>
        m.target in host.umuReadOnly && m == Mount(RoBindTry, m.target, m.target, Own)
      ensures m in OwnMounts(RoBindTry, proton) <==>
        m.target in proton && m == Mount(RoBindTry, m.target, m.target, Own)
    {
      OwnListed(BindTry, host.umuWritable, m);
      OwnListed(RoBindTry, host.umuReadOnly, m);
      OwnListed(RoBindTry, proton, m);
    }
  }

  lemma SameMembers(a: seq<Mount>, b: seq<Mount>)
    requires multiset(a) == multiset(b)
    ensures forall m :: m in a <==> m in b
  {
    forall m
      ensures m in a <==> m in b
    {
      assert m in multiset(a) <==> m in multiset(b);
    }
  }

  lemma MadeListed(request: Request, host: Host)
    ensures var mounts := SortByTarget(AskedFor(request, host));
      SharesMounted(request, mounts) && OwnMounted(request, host, mounts) && SortedByTarget(mounts)
  {
    AskedListed(request, host);
    SortSorts(AskedFor(request, host));
    SameMembers(SortByTarget(AskedFor(request, host)), AskedFor(request, host));
  }

  // The share a mount was asked for with; one for the same folder that was asked for later is mounted later.
  lemma {:induction false} ShareAt(prefix: Path, shares: seq<Share>, k: nat) returns (j: nat)
    requires k < |ShareMounts(prefix, shares)|
    ensures j < |shares|
    ensures var m := ShareMounts(prefix, shares)[k];
      && m.target == m.source == shares[j].path && (Writable(m) <==> shares[j].writable)
      && m.mode in {BindTry, RoBindTry}
      && forall l | j < l < |shares| && shares[l].path == shares[j].path ::
           exists i :: k < i < |ShareMounts(prefix, shares)| && SameFolder(ShareMounts(prefix, shares)[i], m)
  {
    var all, front := ShareMounts(prefix, shares), ShareMounts(prefix, shares[..|shares| - 1]);
    var last := shares[|shares| - 1];
    if k < |front| {
      j := ShareAt(prefix, shares[..|shares| - 1], k);
      SharesOutsidePrefix(prefix, shares[..|shares| - 1]);
      assert front[k] in front;
      forall l | j < l < |shares| && shares[l].path == shares[j].path
        ensures exists i :: k < i < |all| && SameFolder(all[i], all[k])
      {
        if l < |shares| - 1 {
          assert shares[..|shares| - 1][l] == shares[l];
          var i :| k < i < |front| && SameFolder(front[i], front[k]);
          assert SameFolder(all[i], all[k]);
        } else {
          assert SameFolder(all[|front|], all[k]);
        }
      }
    } else {
      j := |shares| - 1;
    }
  }

  predicate SameFolder(a: Mount, b: Mount) {
    a.target == b.target && a.source == b.source && a.mode in {BindTry, RoBindTry}
  }

  // The mount a path ends up in is the last one asked for of those on the same folder that are there.
  lemma SeenIsLast(mounts: seq<Mount>, exist: set<Path>, path: Path) returns (i: nat)
    requires Resolve(SortByTarget(mounts), exist, path).Some?
    ensures i < |mounts| && mounts[i] == Resolve(SortByTarget(mounts), exist, path).value
    ensures Takes(mounts[i], exist, path)
    ensures forall k | i < k < |mounts| && mounts[k].target == mounts[i].target :: !Present(mounts[k], exist)
  {
    DeepestMountWins(mounts, exist, path);
    var m := Resolve(SortByTarget(mounts), exist, path).value;
    i :| IsDeepest(mounts, exist, path, i) && mounts[i] == m;
  }

  /** A path that ends up in a folder a game asked for can be written exactly when the last one to ask for that folder
      asked to write it. */
  lemma LastShareDecides(request: Request, host: Host, exist: set<Path>, path: Path) returns (j: nat)
    requires var seen := Resolve(SortByTarget(AskedFor(request, host)), exist, path);
      seen.Some? && seen.value.origin == Shared
    ensures var m := Resolve(SortByTarget(AskedFor(request, host)), exist, path).value;
      && j < |request.shares| && request.shares[j].path == m.target == m.source
      && (forall l | j < l < |request.shares| :: request.shares[l].path != m.target)
      && (Writable(m) <==> request.shares[j].writable)
  {
    var mounts, shared := AskedFor(request, host), ShareMounts(request.prefix, request.shares);
    var i := SeenIsLast(mounts, exist, path);
    assert i < |shared| && mounts[i] == shared[i];
    j := ShareAt(request.prefix, request.shares, i);
    assert forall k | i < k < |shared| :: mounts[k] == shared[k];
  }

  // What is asked for from the prefix's own folder on.
  lemma AskedFromLeyen(request: Request, host: Host, i: nat)
    requires |ShareMounts(request.prefix, request.shares)| < i < |AskedFor(request, host)|
    ensures var m, leyen := AskedFor(request, host)[i], request.prefix + [".leyen"];
      || m == Mount(RoBind, leyen, leyen, Own)
      || m == Mount(Bind, leyen + ["cache"], host.home + [".cache"], Own)
      || (m.mode == BindTry && m.target in host.umuWritable)
      || (m.mode == RoBindTry && (m.target in host.umuReadOnly || request.proton == Some(m.target)))
    ensures i >= |ShareMounts(request.prefix, request.shares)| + 3 + |host.umuWritable| ==>
      AskedFor(request, host)[i].mode == RoBindTry
  {
  }

  /** A path that ends up in Leyen's folder in the prefix cannot be written, unless the runtime's own writable
      folders, or the home's cache, are that one. */
  lemma LeyenIsReadOnly(request: Request, host: Host, exist: set<Path>, path: Path)
    requires Resolve(SortByTarget(AskedFor(request, host)), exist, path).Some?
    ensures var m := Resolve(SortByTarget(AskedFor(request, host)), exist, path).value;
      m.target == request.prefix + [".leyen"] && Writable(m) ==>
        m.target in host.umuWritable || m.target == host.home + [".cache"]
  {
    var mounts, n := AskedFor(request, host), |ShareMounts(request.prefix, request.shares)|;
    var i := SeenIsLast(mounts, exist, path);
    assert mounts[n + 1] == Mount(RoBind, request.prefix + [".leyen"], request.prefix + [".leyen"], Own);
    if mounts[i].target == request.prefix + [".leyen"] {
      assert i > n;
      AskedFromLeyen(request, host, i);
    }
  }

  /** What a path in the home's cache ends up in comes from Leyen's folder in the prefix, unless the runtime or Proton
      is in that very folder. */
  lemma CacheIsThePrefixs(request: Request, host: Host, exist: set<Path>, path: Path)
    requires Resolve(SortByTarget(AskedFor(request, host)), exist, path).Some?
    ensures var m := Resolve(SortByTarget(AskedFor(request, host)), exist, path).value;
      m.target == host.home + [".cache"] ==>
        || (m.source == request.prefix + [".leyen", "cache"] && Writable(m))
        || m.target in host.umuWritable || m.target in host.umuReadOnly || request.proton == Some(m.target)
  {
    var mounts, n := AskedFor(request, host), |ShareMounts(request.prefix, request.shares)|;
    var leyen := request.prefix + [".leyen"];
    var i := SeenIsLast(mounts, exist, path);
    assert leyen + ["cache"] == request.prefix + [".leyen", "cache"];
    assert mounts[n + 2] == Mount(Bind, leyen + ["cache"], host.home + [".cache"], Own);
    if mounts[i].target == host.home + [".cache"] {
      assert i > n + 1;
      AskedFromLeyen(request, host, i);
    }
  }

  /** The runtime's read-only folders and Proton's cannot be written where they are mounted, whatever a game asks for.
      */
  lemma RuntimeIsReadOnly(request: Request, host: Host, exist: set<Path>, path: Path)
    requires Resolve(SortByTarget(AskedFor(request, host)), exist, path).Some?
    ensures var m := Resolve(SortByTarget(AskedFor(request, host)), exist, path).value;
      (m.target in host.umuReadOnly || request.proton == Some(m.target)) && m.target in exist ==> !Writable(m)
  {
    var mounts, n := AskedFor(request, host), |ShareMounts(request.prefix, request.shares)|;
    var i := SeenIsLast(mounts, exist, path);
    var t := mounts[i].target;
    if (t in host.umuReadOnly || request.proton == Some(t)) && t in exist {
      var k := ReadOnlyAt(request, host, t);
      assert Present(mounts[k], exist) && i >= k;
      AskedFromLeyen(request, host, i);
    }
  }

  lemma ReadOnlyAt(request: Request, host: Host, t: Path) returns (k: nat)
    requires t in host.umuReadOnly || request.proton == Some(t)
    ensures |ShareMounts(request.prefix, request.shares)| + 3 + |host.umuWritable| <= k < |AskedFor(request, host)|
    ensures AskedFor(request, host)[k] == Mount(RoBindTry, t, t, Own)
  {
    var start := |ShareMounts(request.prefix, request.shares)| + 3 + |host.umuWritable|;
    if t in host.umuReadOnly {
      var i :| 0 <= i < |host.umuReadOnly| && host.umuReadOnly[i] == t;
      k := start + i;
    } else {
      k := start + |host.umuReadOnly|;
    }
  }
}
