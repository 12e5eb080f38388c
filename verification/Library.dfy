/** The game library: its file and cache, written only under a lock, and the
    merge that keeps a client's save from losing what the daemon recorded. */
module Library {
  import opened Wrappers

  /** What the daemon records about a game; a client's copy of it may be stale. */
  datatype Recorded = Recorded(playtime: nat, lastPlayed: nat, lastRunDuration: nat, lastRunStatus: string)

  /** `details` stands for every other field of a game. */
  datatype Game<D> = Game(id: string, details: D, recorded: Recorded)

  datatype Item<D> = Single(game: Game<D>) | Group(id: string, title: D, games: seq<Game<D>>)

  function GamesOf<D>(item: Item<D>): seq<Game<D>> {
    match item
    case Single(game) => [game]
    case Group(_, _, games) => games
  }

  function FlattenGames<D>(items: seq<Item<D>>): seq<Game<D>> {
    if items == [] then [] else GamesOf(items[0]) + FlattenGames(items[1..])
  }

  ghost predicate OnlyAt<D>(games: seq<Game<D>>, id: string, i: nat) {
    i < |games| && games[i].id == id && forall j | 0 <= j < |games| && j != i :: games[j].id != id
  }

  /** Exactly one game of the library has the id. */
  ghost predicate Once<D>(items: seq<Item<D>>, id: string) {
    exists i: nat :: OnlyAt(FlattenGames(items), id, i)
  }

  /** The library by game id. */
  ghost function Records<D>(items: seq<Item<D>>): map<string, Recorded> {
    RecordsOf(FlattenGames(items))
  }

  /** Of two games with the same id the later one counts. */
  function RecordsOf<D>(games: seq<Game<D>>): map<string, Recorded> {
    if games == [] then map[]
    else RecordsOf(games[..|games| - 1])[games[|games| - 1].id := games[|games| - 1].recorded]
  }

  // ------------------------------------------------------------- changing one game

  /** The first game of an id, changed in place. */
  function UpdateIn<D>(games: seq<Game<D>>, id: string, f: Recorded -> Recorded): seq<Game<D>> {
    if games == [] then []
    else if games[0].id == id then [games[0].(recorded := f(games[0].recorded))] + games[1..]
    else [games[0]] + UpdateIn(games[1..], id, f)
  }

  predicate Has<D>(games: seq<Game<D>>, id: string) {
    exists i | 0 <= i < |games| :: games[i].id == id
  }

  function UpdateItem<D>(item: Item<D>, id: string, f: Recorded -> Recorded): Item<D> {
    match item
    case Single(game) => if game.id == id then Single(game.(recorded := f(game.recorded))) else item
    case Group(gid, title, games) => Group(gid, title, UpdateIn(games, id, f))
  }

  function UpdateGame<D>(items: seq<Item<D>>, id: string, f: Recorded -> Recorded): seq<Item<D>> {
    if items == [] then []
    else if Has(GamesOf(items[0]), id) then [UpdateItem(items[0], id, f)] + items[1..]
    else [items[0]] + UpdateGame(items[1..], id, f)
  }

  // ------------------------------------------------------------------------ saving

  function Overlay<D>(game: Game<D>, authoritative: map<string, Recorded>): Game<D> {
    if game.id in authoritative then game.(recorded := authoritative[game.id]) else game
  }

  function OverlayAll<D>(games: seq<Game<D>>, authoritative: map<string, Recorded>): seq<Game<D>> {
    seq(|games|, i requires 0 <= i < |games| => Overlay(games[i], authoritative))
  }

  function OverlayItem<D>(item: Item<D>, authoritative: map<string, Recorded>): Item<D> {
    match item
    case Single(game) => Single(Overlay(game, authoritative))
    case Group(id, title, games) => Group(id, title, OverlayAll(games, authoritative))
  }

  function Merged<D>(incoming: seq<Item<D>>, authoritative: map<string, Recorded>): seq<Item<D>> {
    seq(|incoming|, i requires 0 <= i < |incoming| => OverlayItem(incoming[i], authoritative))
  }

  /** The client's library with the daemon's records laid over it. */
  method MergeAuthoritativeFields<D>(incoming: seq<Item<D>>, current: seq<Item<D>>) returns (merged: seq<Item<D>>)
    ensures merged == Merged(incoming, Records(current))
  {
    var authoritative: map<string, Recorded> := map[];
    var games := FlattenGames(current);
    for i := 0 to |games|
      invariant authoritative == RecordsOf(games[..i])
    {
      assert games[..i + 1][..i] == games[..i];
      authoritative := authoritative[games[i].id := games[i].recorded];
    }
    assert games[..|games|] == games;

    merged := incoming;
    for i := 0 to |merged|
      invariant |merged| == |incoming|
      invariant forall k | 0 <= k < i :: merged[k] == OverlayItem(incoming[k], authoritative)
      invariant forall k | i <= k < |merged| :: merged[k] == incoming[k]
    {
      match merged[i] {
        case Single(game) =>
          merged := merged[i := Single(Overlay(game, authoritative))];
        case Group(id, title, inGroup) =>
          var changed := inGroup;
          for j := 0 to |changed|
            invariant |changed| == |inGroup|
            invariant forall k | 0 <= k < j :: changed[k] == Overlay(inGroup[k], authoritative)
            invariant forall k | j <= k < |changed| :: changed[k] == inGroup[k]
          {
            changed := changed[j := Overlay(changed[j], authoritative)];
          }
          assert changed == OverlayAll(inGroup, authoritative);
          merged := merged[i := Group(id, title, changed)];
      }
    }
    assert merged == Merged(incoming, authoritative);
  }

  // --------------------------------------------------- what a change does to a game

  lemma {:induction false} RecordsKeys<D>(games: seq<Game<D>>, id: string)
    ensures id in RecordsOf(games) <==> Has(games, id)
  {
    if games != [] {
      var front, last := games[..|games| - 1], games[|games| - 1];
      RecordsKeys(front, id);
      assert Has(games, id) <==> Has(front, id) || last.id == id by {
        if Has(front, id) { var i :| 0 <= i < |front| && front[i].id == id; assert games[i].id == id; }
        if last.id == id { assert games[|games| - 1].id == id; }
        if Has(games, id) {
          var i :| 0 <= i < |games| && games[i].id == id;
          if i < |front| { assert front[i].id == id; }
        }
      }
    }
  }

  lemma {:induction false} RecordsAt<D>(games: seq<Game<D>>, i: nat)
    requires i < |games| && forall j | i < j < |games| :: games[j].id != games[i].id
    ensures games[i].id in RecordsOf(games) && RecordsOf(games)[games[i].id] == games[i].recorded
  {
    if i < |games| - 1 { RecordsAt(games[..|games| - 1], i); }
  }

  /** Changing a game in its item is changing it in the flat list. */
  lemma {:induction false} UpdateFlattens<D>(items: seq<Item<D>>, id: string, f: Recorded -> Recorded)
    ensures FlattenGames(UpdateGame(items, id, f)) == UpdateIn(FlattenGames(items), id, f)
  {
    if items != [] {
      var games, rest := GamesOf(items[0]), FlattenGames(items[1..]);
      UpdateAppend(games, rest, id, f);
      if Has(games, id) {
        var item := UpdateItem(items[0], id, f);
        assert GamesOf(item) == UpdateIn(games, id, f);
        assert ([item] + items[1..])[1..] == items[1..];
      } else {
        UpdateFlattens(items[1..], id, f);
        assert ([items[0]] + UpdateGame(items[1..], id, f))[1..] == UpdateGame(items[1..], id, f);
      }
    }
  }

  lemma FirstAndRest<T>(a: seq<T>)
    requires a != []
    ensures a == [a[0]] + a[1..]
  {
  }

  lemma Regroup<T>(a: seq<T>, b: seq<T>, c: seq<T>)
    ensures (a + b) + c == a + (b + c)
  {
  }

  lemma HasFirst<D>(first: Game<D>, rest: seq<Game<D>>, id: string)
    ensures Has([first] + rest, id) <==> first.id == id || Has(rest, id)
  {
    var all := [first] + rest;
    if Has(all, id) { var i :| 0 <= i < |all| && all[i].id == id; if i > 0 { assert rest[i - 1].id == id; } }
    if Has(rest, id) { var i :| 0 <= i < |rest| && rest[i].id == id; assert all[i + 1].id == id; }
    if first.id == id { assert all[0].id == id; }
  }

  lemma {:induction false} UpdateAppend<D>(a: seq<Game<D>>, b: seq<Game<D>>, id: string, f: Recorded -> Recorded)
    ensures UpdateIn(a + b, id, f) == if Has(a, id) then UpdateIn(a, id, f) + b else a + UpdateIn(b, id, f)
  {
    if a == [] {
      assert a + b == b && a + UpdateIn(b, id, f) == UpdateIn(b, id, f);
    } else if a[0].id != id {
      var first, rest := [a[0]], a[1..];
      UpdateAppend(rest, b, id, f);
      FirstAndRest(a);
      HasFirst(a[0], rest, id);
      Regroup(first, rest, b);
      Regroup(first, UpdateIn(rest, id, f), b);
      Regroup(first, rest, UpdateIn(b, id, f));
    }
  }

  /** The change keeps every id and every other field, and of the records only
      that of the first game with the id. */
  lemma {:induction false} UpdatePointwise<D>(games: seq<Game<D>>, id: string, f: Recorded -> Recorded)
    ensures var after := UpdateIn(games, id, f);
      && |after| == |games|
      && (forall i | 0 <= i < |games| :: after[i].id == games[i].id && after[i].details == games[i].details)
      && (forall i | 0 <= i < |games| :: after[i].recorded ==
            if games[i].id == id && !Has(games[..i], id) then f(games[i].recorded) else games[i].recorded)
  {
    if games != [] {
      UpdatePointwise(games[1..], id, f);
      forall i | 1 <= i < |games|
        ensures Has(games[..i], id) <==> games[0].id == id || Has(games[1..][..i - 1], id)
      {
        HasFirst(games[0], games[1..][..i - 1], id);
        assert games[..i] == [games[0]] + games[1..][..i - 1];
      }
    }
  }

  lemma {:induction false} MergedFlattens<D>(incoming: seq<Item<D>>, authoritative: map<string, Recorded>)
    ensures FlattenGames(Merged(incoming, authoritative)) == OverlayAll(FlattenGames(incoming), authoritative)
  {
    if incoming != [] {
      MergedFlattens(incoming[1..], authoritative);
      var rest := FlattenGames(incoming[1..]);
      assert Merged(incoming, authoritative)[1..] == Merged(incoming[1..], authoritative);
      assert OverlayAll(GamesOf(incoming[0]) + rest, authoritative)
          == OverlayAll(GamesOf(incoming[0]), authoritative) + OverlayAll(rest, authoritative);
      assert GamesOf(OverlayItem(incoming[0], authoritative)) == OverlayAll(GamesOf(incoming[0]), authoritative);
    }
  }

  // The last game with an id is the one the map has.
  lemma {:induction false} LastWith<D>(games: seq<Game<D>>, id: string) returns (i: nat)
    requires Has(games, id)
    ensures i < |games| && games[i].id == id && forall j | i < j < |games| :: games[j].id != id
    ensures id in RecordsOf(games) && RecordsOf(games)[id] == games[i].recorded
  {
    i := |games| - 1;
    while games[i].id != id
      invariant i < |games| && forall j | i < j < |games| :: games[j].id != id
      decreases i
    {
      var k :| 0 <= k < |games| && games[k].id == id;
      i := i - 1;
    }
    RecordsAt(games, i);
  }

  lemma SameKeysAfterUpdate<D>(games: seq<Game<D>>, id: string, f: Recorded -> Recorded)
    ensures RecordsOf(UpdateIn(games, id, f)).Keys == RecordsOf(games).Keys
  {
    UpdatePointwise(games, id, f);
    SameIds(games, UpdateIn(games, id, f));
  }

  lemma RecordsOfUpdateIn<D>(games: seq<Game<D>>, id: string, f: Recorded -> Recorded)
    ensures var r := RecordsOf(games);
      RecordsOf(UpdateIn(games, id, f)) ==
        if (exists i: nat :: OnlyAt(games, id, i)) && id in r then r[id := f(r[id])] else r
  {
    SameKeysAfterUpdate(games, id, f);
    forall key | key in RecordsOf(games)
      ensures RecordsOf(UpdateIn(games, id, f))[key] ==
        if key == id && exists i: nat :: OnlyAt(games, id, i) then f(RecordsOf(games)[key]) else RecordsOf(games)[key]
    {
      RecordOfUpdate(games, key, id, f);
    }
  }

  /** A change of the first game with the id is a change of the map exactly when no other game has the id: otherwise the
      map, which has the last one, stays as it was. */
  lemma RecordsOfUpdate<D>(items: seq<Item<D>>, id: string, f: Recorded -> Recorded)
    ensures var r := Records(items);
            Records(UpdateGame(items, id, f)) == if Once(items, id) && id in r then r[id := f(r[id])] else r
  {
    UpdateFlattens(items, id, f);
    RecordsOfUpdateIn(FlattenGames(items), id, f);
  }

  lemma RecordOfUpdate<D>(games: seq<Game<D>>, key: string, id: string, f: Recorded -> Recorded)
    requires key in RecordsOf(games)
    ensures key in RecordsOf(UpdateIn(games, id, f))
    ensures RecordsOf(UpdateIn(games, id, f))[key] ==
      if key == id && exists i: nat :: OnlyAt(games, id, i) then f(RecordsOf(games)[key]) else RecordsOf(games)[key]
  {
    RecordsKeys(games, key);
    var i := LastWith(games, key);
    UpdatePointwise(games, id, f);
    RecordsAt(UpdateIn(games, id, f), i);
    if key == id {
      OnlyExactly(games, id, i);
    }
  }

  // The last game with an id is the only one exactly when none before it has it.
  lemma OnlyExactly<D>(games: seq<Game<D>>, id: string, i: nat)
    requires i < |games| && games[i].id == id && forall j | i < j < |games| :: games[j].id != id
    ensures (exists k: nat :: OnlyAt(games, id, k)) <==> !Has(games[..i], id)
  {
    if Has(games[..i], id) {
      var k :| 0 <= k < i && games[..i][k].id == id;
      assert games[k].id == id;
    } else {
      forall j | 0 <= j < i
        ensures games[j].id != id
      {
        assert games[..i][j] == games[j];
      }
      assert OnlyAt(games, id, i);
    }
  }

  lemma OnceByIds<D>(items: seq<Item<D>>, after: seq<Item<D>>, id: string)
    requires var a, b := FlattenGames(items), FlattenGames(after);
      |a| == |b| && forall i | 0 <= i < |a| :: a[i].id == b[i].id
    ensures Once(items, id) <==> Once(after, id)
  {
    var a, b := FlattenGames(items), FlattenGames(after);
    assert forall i: nat :: OnlyAt(a, id, i) <==> OnlyAt(b, id, i);
  }

  lemma OnceKnown<D>(items: seq<Item<D>>, id: string)
    requires Once(items, id)
    ensures id in Records(items)
  {
    var i: nat :| OnlyAt(FlattenGames(items), id, i);
    RecordsAt(FlattenGames(items), i);
  }

  lemma SameIds<D>(a: seq<Game<D>>, b: seq<Game<D>>)
    requires |a| == |b| && forall i | 0 <= i < |a| :: a[i].id == b[i].id
    ensures RecordsOf(a).Keys == RecordsOf(b).Keys
  {
    forall key ensures key in RecordsOf(a) <==> key in RecordsOf(b) {
      RecordsKeys(a, key);
      RecordsKeys(b, key);
      if Has(a, key) { var i :| 0 <= i < |a| && a[i].id == key; assert b[i].id == key; }
      if Has(b, key) { var i :| 0 <= i < |b| && b[i].id == key; assert a[i].id == key; }
    }
  }

  /** A save keeps the client's games, and of each the daemon's record if it has
      one. */
  lemma RecordsOfMerge<D>(incoming: seq<Item<D>>, authoritative: map<string, Recorded>)
    ensures Records(Merged(incoming, authoritative)).Keys == Records(incoming).Keys
    ensures forall id | id in Records(incoming) :: (
              Records(Merged(incoming, authoritative))[id]
           == if id in authoritative then authoritative[id] else Records(incoming)[id])
  {
    var games, after := FlattenGames(incoming), FlattenGames(Merged(incoming, authoritative));
    MergedFlattens(incoming, authoritative);
    SameIds(games, after);
    forall id | id in Records(incoming)
      ensures RecordsOf(after)[id] == if id in authoritative then authoritative[id] else Records(incoming)[id]
    {
      RecordsKeys(games, id);
      var i := LastWith(games, id);
      RecordsAt(after, i);
    }
  }

  /** A save keeps the client's shape: every group, every title, every game in its
      place, and every field the daemon does not record. */
  lemma MergeKeepsShape<D>(incoming: seq<Item<D>>, authoritative: map<string, Recorded>)
    ensures var merged := Merged(incoming, authoritative);
      && |merged| == |incoming|
      && forall i | 0 <= i < |incoming| ::
           && merged[i].Single? == incoming[i].Single?
           && (incoming[i].Group? ==> merged[i].id == incoming[i].id && merged[i].title == incoming[i].title)
           && |GamesOf(merged[i])| == |GamesOf(incoming[i])|
           && forall j | 0 <= j < |GamesOf(incoming[i])| ::
                && GamesOf(merged[i])[j].id == GamesOf(incoming[i])[j].id
                && GamesOf(merged[i])[j].details == GamesOf(incoming[i])[j].details
  {
  }

  // ------------------------------------------------------------------ conservation

  datatype Change<D> =
    | Save(incoming: seq<Item<D>>)
    | AddPlaytime(id: string, seconds: nat)
    | LaunchStart(id: string, epoch: nat)
    | LaunchResult(id: string, duration: nat, status: string)

  function AddSeconds(seconds: nat): Recorded -> Recorded {
    (r: Recorded) => r.(playtime := r.playtime + seconds)
  }

  function SetStart(epoch: nat): Recorded -> Recorded {
    (r: Recorded) => r.(lastPlayed := epoch)
  }

  function SetResult(duration: nat, status: string): Recorded -> Recorded {
    (r: Recorded) => r.(lastRunDuration := duration, lastRunStatus := status)
  }

  ghost function Apply<D>(items: seq<Item<D>>, change: Change<D>): seq<Item<D>> {
    match change
    case Save(incoming) => Merged(incoming, Records(items))
    case AddPlaytime(id, seconds) => UpdateGame(items, id, AddSeconds(seconds))
    case LaunchStart(id, epoch) => UpdateGame(items, id, SetStart(epoch))
    case LaunchResult(id, duration, status) => UpdateGame(items, id, SetResult(duration, status))
  }

  ghost function ApplyAll<D>(items: seq<Item<D>>, changes: seq<Change<D>>): seq<Item<D>> {
    if changes == [] then items
    else Apply(ApplyAll(items, changes[..|changes| - 1]), changes[|changes| - 1])
  }

  function Added<D>(changes: seq<Change<D>>, id: string): nat {
    if changes == [] then 0
    else Added(changes[..|changes| - 1], id)
         + match changes[|changes| - 1]
           case AddPlaytime(id', seconds) => if id' == id then seconds else 0
           case _ => 0
  }

  /** Every save has the game, and once. */
  ghost predicate Stays<D>(changes: seq<Change<D>>, id: string) {
    forall i | 0 <= i < |changes| && changes[i].Save? :: Once(changes[i].incoming, id)
  }

  lemma UpdateOnce<D>(items: seq<Item<D>>, key: string, f: Recorded -> Recorded, id: string)
    ensures Once(items, id) <==> Once(UpdateGame(items, key, f), id)
  {
    UpdateFlattens(items, key, f);
    UpdatePointwise(FlattenGames(items), key, f);
    OnceByIds(items, UpdateGame(items, key, f), id);
  }

  lemma MergedOnce<D>(incoming: seq<Item<D>>, authoritative: map<string, Recorded>, id: string)
    ensures Once(incoming, id) <==> Once(Merged(incoming, authoritative), id)
  {
    MergedFlattens(incoming, authoritative);
    OnceByIds(incoming, Merged(incoming, authoritative), id);
  }

  lemma ApplyOne<D>(items: seq<Item<D>>, change: Change<D>, id: string)
    requires Once(items, id)
    requires change.Save? ==> Once(change.incoming, id)
    ensures Once(Apply(items, change), id) && id in Records(items) && id in Records(Apply(items, change))
    ensures Records(Apply(items, change))[id].playtime
         == Records(items)[id].playtime + Added([change], id)
  {
    OnceKnown(items, id);
    assert Added([change], id) == Added([change][..0], id)
      + match change case AddPlaytime(id', seconds) => if id' == id then seconds else 0 case _ => 0;
    match change
    case Save(incoming) =>
      OnceKnown(incoming, id);
      MergedOnce(incoming, Records(items), id);
      RecordsOfMerge(incoming, Records(items));
    case AddPlaytime(id', seconds) =>
      UpdateOnce(items, id', AddSeconds(seconds), id);
      RecordsOfUpdate(items, id', AddSeconds(seconds));
    case LaunchStart(id', epoch) =>
      UpdateOnce(items, id', SetStart(epoch), id);
      RecordsOfUpdate(items, id', SetStart(epoch));
    case LaunchResult(id', duration, status) =>
      UpdateOnce(items, id', SetResult(duration, status), id);
      RecordsOfUpdate(items, id', SetResult(duration, status));
  }

  /** Playtime is conserved: over any interleaving of saves, additions and launch
      records, a game that is in the library and in every save, once, has the
      playtime it started with plus every addition, however stale the saves were
      and whatever other ids are doubled. */
  lemma {:induction false} PlaytimeConserved<D>(items: seq<Item<D>>, changes: seq<Change<D>>, id: string)
    requires Once(items, id) && Stays(changes, id)
    ensures Once(ApplyAll(items, changes), id)
    ensures id in Records(items) && id in Records(ApplyAll(items, changes))
    ensures Records(ApplyAll(items, changes))[id].playtime == Records(items)[id].playtime + Added(changes, id)
  {
    OnceKnown(items, id);
    if changes != [] {
      var front, last := changes[..|changes| - 1], changes[|changes| - 1];
      PlaytimeConserved(items, front, id);
      ApplyOne(ApplyAll(items, front), last, id);
    }
  }

  /** What one change makes of a game's record: an addition adds to the playtime, a start sets when it was last
      played, a result how long and how it ran, and a save nothing. */
  function RecordAfter<D>(r: Recorded, change: Change<D>, id: string): Recorded {
    match change
    case Save(_) => r
    case AddPlaytime(of, seconds) =>
      if of != id then r else Recorded(r.playtime + seconds, r.lastPlayed, r.lastRunDuration, r.lastRunStatus)
    case LaunchStart(of, epoch) =>
      if of != id then r else Recorded(r.playtime, epoch, r.lastRunDuration, r.lastRunStatus)
    case LaunchResult(of, duration, status) =>
      if of != id then r else Recorded(r.playtime, r.lastPlayed, duration, status)
  }

  function RecordAfterAll<D>(r: Recorded, changes: seq<Change<D>>, id: string): Recorded {
    if changes == [] then r
    else RecordAfter(RecordAfterAll(r, changes[..|changes| - 1], id), changes[|changes| - 1], id)
  }

  lemma RecordOfOne<D>(items: seq<Item<D>>, change: Change<D>, id: string)
    requires Once(items, id)
    requires change.Save? ==> Once(change.incoming, id)
    ensures id in Records(items) && id in Records(Apply(items, change))
    ensures Records(Apply(items, change))[id] == RecordAfter(Records(items)[id], change, id)
  {
    OnceKnown(items, id);
    match change
    case Save(incoming) =>
      OnceKnown(incoming, id);
      RecordsOfMerge(incoming, Records(items));
    case AddPlaytime(of, seconds) => RecordsOfUpdate(items, of, AddSeconds(seconds));
    case LaunchStart(of, epoch) => RecordsOfUpdate(items, of, SetStart(epoch));
    case LaunchResult(of, duration, status) => RecordsOfUpdate(items, of, SetResult(duration, status));
  }

  /** All that the daemon records of a game survives any saves: over any interleaving, the record of a game that is in
      the library and in every save, once, is its first one with the additions and launch records in their order. */
  lemma {:induction false} RecordConserved<D>(items: seq<Item<D>>, changes: seq<Change<D>>, id: string)
    requires Once(items, id) && Stays(changes, id)
    ensures id in Records(items) && id in Records(ApplyAll(items, changes))
    ensures Records(ApplyAll(items, changes))[id] == RecordAfterAll(Records(items)[id], changes, id)
  {
    OnceKnown(items, id);
    if changes != [] {
      var front, last := changes[..|changes| - 1], changes[|changes| - 1];
      RecordConserved(items, front, id);
      PlaytimeConserved(items, front, id);
      RecordOfOne(ApplyAll(items, front), last, id);
    }
  }

  /** What a save keeps of an addition: all of it exactly when one game only has the id, and nothing otherwise. The
      addition goes to the first game with the id, a save takes the record of the last. */
  lemma AdditionKeptExactly<D>(items: seq<Item<D>>, id: string, seconds: nat)
    requires Has(FlattenGames(items), id) && seconds > 0
    ensures id in Records(items) && id in Records(UpdateGame(items, id, AddSeconds(seconds)))
    ensures var before, after := Records(items)[id], Records(UpdateGame(items, id, AddSeconds(seconds)))[id];
      && (after.playtime == before.playtime + seconds <==> Once(items, id))
      && (after.playtime == before.playtime <==> !Once(items, id))
  {
    RecordsKeys(FlattenGames(items), id);
    RecordsOfUpdate(items, id, AddSeconds(seconds));
  }

  /** With two games of one id an addition is lost in the next save, whatever library that brings. */
  lemma DuplicateIdLosesPlaytime<D>(items: seq<Item<D>>, incoming: seq<Item<D>>, id: string, seconds: nat)
    requires Has(FlattenGames(items), id) && !Once(items, id)
    ensures ApplyAll(items, [AddPlaytime(id, seconds), Save(incoming)]) == ApplyAll(items, [Save(incoming)])
  {
    var changes := [AddPlaytime(id, seconds), Save(incoming)];
    assert changes[..1] == [AddPlaytime(id, seconds)] && changes[..1][..0] == [];
    assert [changes[1]][..0] == [];
    assert ApplyAll(items, changes[..1]) == Apply(ApplyAll(items, []), changes[0]);
    RecordsOfUpdate(items, id, AddSeconds(seconds));
  }

  // ------------------------------------------------------------- the file, the cache

  /** What reading the file gives. A file that cannot be read or was written by a
      newer version is never overwritten. */
  datatype Disk<D> = Absent | Unreadable | Newer | Stored(items: seq<Item<D>>) {
    predicate Readable() { Absent? || Stored? }

    function Items(): seq<Item<D>> { if Stored? then items else [] }
  }

  class LibraryStore<D(0)> {
    var disk: Disk<D>
    var cache: Option<seq<Item<D>>>

    /** The cache never differs from the file. */
    ghost predicate Valid() reads this {
      cache.Some? ==> disk.Readable() && cache.value == disk.Items()
    }

    /** Writes `items` back when they changed; `written` is whether the atomic
        write succeeds. */
    method Persist(items: seq<Item<D>>, changed: bool, written: bool) returns (done: bool)
      requires Valid() && disk.Readable() && (!changed ==> items == disk.Items())
      modifies this
      ensures Valid() && (done <==> !changed || written)
      ensures done ==> disk.Readable() && disk.Items() == items && cache == Some(items)
      ensures done && changed ==> disk == Stored(items)
      ensures !changed ==> disk == old(disk)
      ensures !done ==> disk == old(disk) && cache == old(cache)
    {
      if !changed {
        cache := Some(items);
        return true;
      }
      if !written { return false; }
      disk := Stored(items);
      cache := Some(items);
      return true;
    }

    /** Credits a game; the total is returned when it was found and written. */
    method AddGamePlaytime(id: string, seconds: nat, locked: bool, written: bool) returns (total: Option<nat>)
      requires Valid()
      modifies this
      ensures Valid()
      ensures total.Some? <==> locked && old(disk.Readable()) && written && Has(FlattenGames(old(disk.Items())), id)
      ensures total.Some? ==> disk == Stored(UpdateGame(old(disk.Items()), id, AddSeconds(seconds)))
                              && cache == Some(disk.items)
                              && FirstRecord(FlattenGames(old(disk.Items())), id).Some?
                              && total.value ==
                                    FirstRecord(FlattenGames(old(disk.Items())), id).value.playtime + seconds
      ensures total.None? ==> disk == old(disk)
      ensures old(disk).Unreadable? || old(disk).Newer? || old(disk).Absent? ==> total.None?
    {
      if !locked || !disk.Readable() { return None; }
      var items, record := FindAndUpdate(disk.Items(), id, AddSeconds(seconds));
      var done := Persist(items, record.Some?, written);
      return if done && record.Some? then Some(record.value.playtime) else None;
    }

    /** A client's save: its library with the daemon's records. */
    method SaveLibraryMerged(incoming: seq<Item<D>>, locked: bool, written: bool) returns (saved: bool)
      requires Valid()
      modifies this
      ensures Valid()
      ensures saved <==> locked && old(disk.Readable()) && written
      ensures saved ==> disk == Stored(Merged(incoming, Records(old(disk.Items())))) && cache == Some(disk.items)
      ensures !saved ==> disk == old(disk) && cache == old(cache)
      ensures saved <==> locked && written && !old(disk).Unreadable? && !old(disk).Newer?
    {
      if !locked || !disk.Readable() { return false; }
      var merged := MergeAuthoritativeFields(incoming, disk.Items());
      saved := Persist(merged, true, written);
    }

    /** The library as clients see it, read from the file the first time. */
    method LoadLibrary() returns (items: Option<seq<Item<D>>>)
      requires Valid()
      modifies this`cache
      ensures Valid() && (items.Some? <==> disk.Readable())
      ensures items.Some? ==> items.value == disk.Items() && cache == items
      ensures match disk
        case Absent => items == Some([])
        case Stored(stored) => items == Some(stored)
        case _ => items == None
    {
      if cache.Some? { return cache; }
      if !disk.Readable() { return None; }
      cache := Some(disk.Items());
      return cache;
    }
  }

  /** The first game of an id is the one found. */
  function FirstRecord<D>(games: seq<Game<D>>, id: string): Option<Recorded> {
    if games == [] then None
    else if games[0].id == id then Some(games[0].recorded)
    else FirstRecord(games[1..], id)
  }

  /** Finds the first game of an id, item by item, and changes its record. */
  method FindAndUpdate<D>(items: seq<Item<D>>, id: string, f: Recorded -> Recorded)
    returns (after: seq<Item<D>>, record: Option<Recorded>)
    ensures after == UpdateGame(items, id, f)
    ensures record == match FirstRecord(FlattenGames(items), id) case Some(r) => Some(f(r)) case None => None
    ensures record.Some? <==> Has(FlattenGames(items), id)
    ensures record.None? ==> after == items
  {
    for i := 0 to |items|
      invariant Skipped(items, i, id)
    {
      var games := GamesOf(items[i]);
      for j := 0 to |games|
        invariant forall k | 0 <= k < j :: games[k].id != id
      {
        if games[j].id == id {
          var changed := games[j].(recorded := f(games[j].recorded));
          FirstFound(items, i, j, id);
          UpdateFound(items, i, j, id, f);
          after := items[i := match items[i]
                              case Single(_) => Single(changed)
                              case Group(gid, title, inGroup) => Group(gid, title, inGroup[j := changed])];
          return after, Some(changed.recorded);
        }
      }
    }
    after := items;
    record := None;
    SkippedAll(items, id);
    UpdateAbsent(items, id, f);
  }

  lemma {:induction false} UpdateAbsent<D>(items: seq<Item<D>>, id: string, f: Recorded -> Recorded)
    requires Skipped(items, |items|, id)
    ensures UpdateGame(items, id, f) == items
  {
    if items != [] {
      assert Skipped(items[1..], |items| - 1, id);
      assert !Has(GamesOf(items[0]), id);
      UpdateAbsent(items[1..], id, f);
    }
  }

  lemma {:induction false} UpdateFound<D>(items: seq<Item<D>>, i: nat, j: nat, id: string, f: Recorded -> Recorded)
    requires i < |items| && Skipped(items, i, id)
    requires j < |GamesOf(items[i])| && GamesOf(items[i])[j].id == id
    requires forall k | 0 <= k < j :: GamesOf(items[i])[k].id != id
    ensures var changed := GamesOf(items[i])[j].(recorded := f(GamesOf(items[i])[j].recorded));
      UpdateGame(items, id, f) == items[i := match items[i]
                                             case Single(_) => Single(changed)
                                             case Group(gid, title, inGroup) =>
                                               Group(gid, title, inGroup[j := changed])]
  {
    if i == 0 {
      assert Has(GamesOf(items[0]), id);
      UpdateAt(GamesOf(items[0]), j, id, f);
    } else {
      assert !Has(GamesOf(items[0]), id);
      UpdateFound(items[1..], i - 1, j, id, f);
    }
  }

  /** No game of the first `n` items has the id. */
  ghost predicate Skipped<D>(items: seq<Item<D>>, n: nat, id: string)
    requires n <= |items|
  {
    forall i | 0 <= i < n :: !Has(GamesOf(items[i]), id)
  }

  lemma {:induction false} SkippedAll<D>(items: seq<Item<D>>, id: string)
    requires Skipped(items, |items|, id)
    ensures !Has(FlattenGames(items), id) && FirstRecord(FlattenGames(items), id) == None
  {
    if items != [] {
      assert Skipped(items[1..], |items| - 1, id);
      SkippedAll(items[1..], id);
      FirstAppend(GamesOf(items[0]), FlattenGames(items[1..]), id);
      assert !Has(GamesOf(items[0]), id);
    }
  }

  lemma {:induction false} FirstAppend<D>(a: seq<Game<D>>, b: seq<Game<D>>, id: string)
    ensures FirstRecord(a + b, id) == if Has(a, id) then FirstRecord(a, id) else FirstRecord(b, id)
    ensures Has(a, id) <==> FirstRecord(a, id).Some?
    ensures Has(a + b, id) <==> Has(a, id) || Has(b, id)
  {
    if a == [] {
      assert a + b == b;
    } else {
      FirstAppend(a[1..], b, id);
      assert (a + b)[1..] == a[1..] + b;
    }
  }

  lemma {:induction false} FirstFound<D>(items: seq<Item<D>>, i: nat, j: nat, id: string)
    requires i < |items| && Skipped(items, i, id)
    requires j < |GamesOf(items[i])| && GamesOf(items[i])[j].id == id
    requires forall k | 0 <= k < j :: GamesOf(items[i])[k].id != id
    ensures FirstRecord(FlattenGames(items), id) == Some(GamesOf(items[i])[j].recorded)
    ensures Has(FlattenGames(items), id)
  {
    FirstAppend(FlattenGames(items), [], id);
    FirstAppend(GamesOf(items[0]), FlattenGames(items[1..]), id);
    if i == 0 {
      FirstAt(GamesOf(items[0]), j, id);
      assert Has(GamesOf(items[0]), id);
    } else {
      assert !Has(GamesOf(items[0]), id);
      FirstFound(items[1..], i - 1, j, id);
    }
  }

  lemma {:induction false} FirstAt<D>(games: seq<Game<D>>, j: nat, id: string)
    requires j < |games| && games[j].id == id && forall k | 0 <= k < j :: games[k].id != id
    ensures FirstRecord(games, id) == Some(games[j].recorded)
  {
    if j > 0 { FirstAt(games[1..], j - 1, id); }
  }

  lemma {:induction false} UpdateAt<D>(games: seq<Game<D>>, j: nat, id: string, f: Recorded -> Recorded)
    requires j < |games| && games[j].id == id && forall k | 0 <= k < j :: games[k].id != id
    ensures UpdateIn(games, id, f) == games[j := games[j].(recorded := f(games[j].recorded))]
  {
    if j > 0 { UpdateAt(games[1..], j - 1, id, f); }
  }
}
