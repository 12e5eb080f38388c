/** What a session's stay in the registry means: over any steps it leaves only finalized, and exactly when a game has
    one session at most that is not being finalized. */
module SessionLives {
  import opened Wrappers
  import opened Sessions
  import opened SessionRuns
  import L = Library

  // ------------------------------------------------------------------- over any steps

  /** Every key launched is registered, finalized (with or without success) or
      dropped by a restart. */
  ghost predicate NoneLost<D>(s: State<D>) {
    forall key | key in s.launched ::
      key in Keys(s.registry) || key in AttemptKeys(s.attempts) || key in s.dropped
  }

  ghost predicate DoneOk<D>(s: State<D>) {
    && (forall key | key in s.claims && s.claims[key].done :: key in AttemptKeys(s.attempts))
    && (forall p | p in s.passes && (s.passes[p].Marking? || s.passes[p].Removing?) ::
          s.passes[p].key in AttemptKeys(s.attempts))
    && NoneLost(s)
  }

  /** Only sessions that were launched are known anywhere. */
  ghost predicate Known<D>(s: State<D>) {
    && Keys(s.registry) <= s.launched && AttemptKeys(s.attempts) <= s.launched
    && forall p | p in s.passes :: Pending(s.passes[p]) + KeyOf(s.passes[p]) <= s.launched
  }

  lemma ScanDone<D>(s: State<D>, pass: nat, dead: set<Key>, updates: map<Key, Update>)
    requires DoneOk(s) && Known(s)
    ensures DoneOk(Next(s, Scan(pass, dead, updates))) && Known(Next(s, Scan(pass, dead, updates)))
  {
    UpdatedKeys(s.registry, updates);
    if pass in s.passes && s.passes[pass].Scanning? {
      KeySeqMembers(s.passes[pass].snapshot, dead);
    }
  }

  lemma WriteDone<D>(s: State<D>, pass: nat, elapsed: nat, written: bool)
    requires DoneOk(s) && Known(s)
    ensures DoneOk(Next(s, Write(pass, elapsed, written))) && Known(Next(s, Write(pass, elapsed, written)))
  {
  }

  lemma RemoveDone<D>(s: State<D>, pass: nat, written: bool)
    requires DoneOk(s) && Known(s)
    ensures DoneOk(Next(s, Remove(pass, written))) && Known(Next(s, Remove(pass, written)))
  {
    if pass in s.passes && s.passes[pass].Removing? {
      WithoutKeys(s.registry, {s.passes[pass].key});
    }
  }

  lemma RestartDone<D>(s: State<D>, dead: set<Key>)
    requires DoneOk(s) && Known(s)
    ensures DoneOk(Next(s, Restart(dead))) && Known(Next(s, Restart(dead)))
  {
    WithoutKeys(s.registry, dead);
  }

  lemma PassDone<D>(s: State<D>, step: Step<D>)
    requires DoneOk(s) && Known(s)
    requires step.Abort? || step.Check? || step.Mark? || step.End?
    ensures DoneOk(Next(s, step)) && Known(Next(s, step))
  {
  }

  lemma OtherDone<D>(s: State<D>, step: Step<D>)
    requires DoneOk(s) && Known(s)
    requires step.Tick? || step.Begin? || step.Change? || step.Crash?
    ensures DoneOk(Next(s, step)) && Known(Next(s, step))
  {
  }

  lemma StepDone<D>(s: State<D>, step: Step<D>)
    requires DoneOk(s) && Known(s)
    ensures DoneOk(Next(s, step)) && Known(Next(s, step))
  {
    match step
    case Launch(session) =>
    case Scan(pass, dead, updates) => ScanDone(s, pass, dead, updates);
    case TryClaim(pass) =>
    case Write(pass, elapsed, written) => WriteDone(s, pass, elapsed, written);
    case Remove(pass, written) => RemoveDone(s, pass, written);
    case Restart(dead) => RestartDone(s, dead);
    case _ =>
      if step.Abort? || step.Check? || step.Mark? || step.End? {
        PassDone(s, step);
      } else {
        OtherDone(s, step);
      }
  }

  lemma {:induction false} StepsDone<D>(init: State<D>, steps: seq<Step<D>>)
    requires Initial(init)
    ensures DoneOk(After(init, steps)) && Known(After(init, steps))
  {
    if steps != [] {
      StepsDone(init, steps[..|steps| - 1]);
      StepDone(After(init, steps[..|steps| - 1]), steps[|steps| - 1]);
    }
  }

  /** A key leaves the registry only once a finalize of it was attempted, unless a
      restart drops it: over any steps whatever, however slow the passes and the
      removals, whatever keys are used again and whatever restarts find. */
  lemma LeavesOnlyFinalized<D>(init: State<D>, steps: seq<Step<D>>)
    requires Initial(init)
    ensures NoneLost(After(init, steps))
  {
    StepsDone(init, steps);
  }

  ghost predicate Written(attempts: seq<Attempt>, key: Key) {
    exists a :: a in attempts && a.key == key && a.written
  }

  /** Over any steps whatever, every key ever launched is registered, dropped by a
      restart or credited exactly when each one that was finalized is: a key that is
      gone uncredited is one whose every write failed. */
  lemma CreditedExactly<D>(init: State<D>, steps: seq<Step<D>>)
    requires Initial(init)
    ensures var s := After(init, steps);
      (forall key | key in s.launched :: key in Keys(s.registry) || key in s.dropped || Written(s.attempts, key)) <==>
      forall key | key in AttemptKeys(s.attempts) ::
        key in Keys(s.registry) || key in s.dropped || Written(s.attempts, key)
  {
    StepsDone(init, steps);
  }

  // --------------------------------------------------------------- one session a game

  ghost predicate OneLive<D>(s: State<D>) {
    && OneUnclaimed(s.registry, s.finished)
    && (s.recovered ==> OneUnclaimed(s.registry, s.claims.Keys))
  }

  /** Claims, and passes that are past their scan, are about sessions found finished. */
  ghost predicate FinishedOnly<D>(s: State<D>) {
    && (!s.recovered ==> s.passes == map[] && s.claims == map[])
    && s.claims.Keys <= s.finished
    && forall p | p in s.passes ::
         && Pending(s.passes[p]) <= s.launched
         && (!s.passes[p].Scanning? ==> Pending(s.passes[p]) + KeyOf(s.passes[p]) <= s.finished)
  }

  ghost predicate LiveInv<D>(s: State<D>) {
    RegistryOk(s) && FinishedOnly(s) && OneLive(s)
  }

  // A claimed session leaves the registry at most `lag` seconds after its claim.
  ghost predicate Prompt<D>(s: State<D>, lag: nat) {
    forall key | key in s.claims && key in Keys(s.registry) :: s.now <= s.claims[key].at + lag
  }

  lemma ScanLive<D>(s: State<D>, pass: nat, dead: set<Key>, updates: map<Key, Update>)
    requires LiveInv(s)
    ensures LiveInv(Next(s, Scan(pass, dead, updates)))
  {
    UpdatedKeys(s.registry, updates);
    var after := UpdatedAll(s.registry, updates);
    assert forall i | 0 <= i < |after| :: after[i].key == s.registry[i].key;
    if pass in s.passes && s.passes[pass].Scanning? {
      KeySeqMembers(s.passes[pass].snapshot, dead);
    }
  }

  lemma RemoveLive<D>(s: State<D>, pass: nat, written: bool)
    requires LiveInv(s)
    ensures LiveInv(Next(s, Remove(pass, written)))
  {
    if pass in s.passes && s.passes[pass].Removing? {
      var key := s.passes[pass].key;
      WithoutKeys(s.registry, {key});
      WithoutKeeps(s.registry, {key}, s.finished);
      WithoutKeeps(s.registry, {key}, s.claims.Keys);
    }
  }

  // What a restart keeps was found dead by no pass, so no two of it are one game's.
  lemma RestartLive<D>(s: State<D>, dead: set<Key>)
    requires LiveInv(s) && s.finished * Keys(s.registry) <= dead
    ensures LiveInv(Next(s, Restart(dead)))
  {
    var kept := Without(s.registry, dead);
    WithoutKeys(s.registry, dead);
    WithoutKeeps(s.registry, dead, s.finished);
    forall i | 0 <= i < |kept|
      ensures kept[i].key !in s.finished
    {
      assert kept[i].key in Keys(kept);
    }
    assert OneUnclaimed(kept, {});
    if !s.recovered {
      assert Next(s, Restart(dead)).claims.Keys == {};
    }
  }

  lemma OtherLive<D>(s: State<D>, step: Step<D>)
    requires LiveInv(s)
    requires step.Tick? || step.Begin? || step.Abort? || step.Check? || step.Write? || step.End? ||
      step.Change? || step.Crash?
    ensures LiveInv(Next(s, step))
  {
  }

  lemma StepLive<D>(s: State<D>, step: Step<D>, lag: nat)
    requires LiveInv(s) && Allowed(s, step, true) && Prompt(s, lag) && lag <= DAY
    ensures LiveInv(Next(s, step))
  {
    match step
    case Launch(session) =>
    case Scan(pass, dead, updates) => ScanLive(s, pass, dead, updates);
    case TryClaim(pass) =>
    case Mark(pass) =>
    case Remove(pass, written) => RemoveLive(s, pass, written);
    case Restart(dead) => if !s.recovered { RestartLive(s, dead); }
    case _ => OtherLive(s, step);
  }

  lemma {:induction false} RunLive<D>(init: State<D>, steps: seq<Step<D>>, life: nat, lag: nat)
    requires IsRun(init, steps, life, lag, true) && lag <= DAY
    ensures LiveInv(After(init, steps)) && Prompt(After(init, steps), lag)
  {
    if steps != [] {
      var front := steps[..|steps| - 1];
      RunLive(init, front, life, lag);
      StepLive(After(init, front), steps[|steps| - 1], lag);
    }
  }

  /** At most one session of a game is not being finalized. */
  ghost predicate OneEach<D>(s: State<D>) {
    s.recovered ==> OneUnclaimed(s.registry, s.claims.Keys)
  }

  /** A relaunch during the old session's finalize never gives a game two sessions
      that are not being finalized, however long passes take. */
  lemma OneLiveSession<D>(init: State<D>, steps: seq<Step<D>>, life: nat, lag: nat)
    requires IsRun(init, steps, life, lag, true) && lag <= DAY
    ensures OneEach(After(init, steps))
  {
    RunLive(init, steps, life, lag);
  }

  // ---------------------------------------------------------------- where it fails

  const AGAIN := Session(Key("game", 1), None, true)
  const OTHER := Session(Key("other", 0), None, true)

  lemma TwoSessions()
    ensures Without([SESSION, AGAIN], {}) == [SESSION, AGAIN]
    ensures Keys([SESSION, AGAIN]) == {KEY, AGAIN.key}
  {
    assert [SESSION, AGAIN][..1] == [SESSION] && [SESSION][..0] == [];
    assert Without([SESSION], {}) == [SESSION];
    KeysSnoc([SESSION], AGAIN);
    OneSession();
    assert [SESSION] + [AGAIN] == [SESSION, AGAIN];
  }

  lemma ThreeSessions()
    ensures KeySeq([SESSION, AGAIN, OTHER], {OTHER.key}) == [OTHER.key]
    ensures Keys([SESSION, AGAIN, OTHER]) == {KEY, AGAIN.key, OTHER.key}
    ensures UpdatedAll([SESSION, AGAIN, OTHER], map[]) == [SESSION, AGAIN, OTHER]
  {
    assert [SESSION, AGAIN, OTHER][..2] == [SESSION, AGAIN];
    assert [SESSION, AGAIN][..1] == [SESSION] && [SESSION][..0] == [];
    assert KeySeq([SESSION], {OTHER.key}) == [];
    assert KeySeq([SESSION, AGAIN], {OTHER.key}) == [];
    TwoSessions();
    KeysSnoc([SESSION, AGAIN], OTHER);
    assert [SESSION, AGAIN] + [OTHER] == [SESSION, AGAIN, OTHER];
  }

  /** A finalized session still registered, and its game launched again. */
  ghost function Relaunched<D>(library: seq<L.Item<D>>, now: nat): State<D> {
    Leftover(library).(now := now, registry := [SESSION, AGAIN], launched := {KEY, AGAIN.key})
  }

  lemma Relaunch<D(!new)>(r: State<D> -> bool, library: seq<L.Item<D>>, now: nat, life: nat, lag: nat, steady: bool)
    requires Closed(r, life, lag, steady) && r(Leftover(library).(now := now)) && now <= lag
    ensures r(Relaunched(library, now))
  {
    OneSession();
    TwoSessions();
    assert [SESSION] + [AGAIN] == [SESSION, AGAIN];
    assert Moves(r, Leftover(library).(now := now), Launch(AGAIN), Relaunched(library, now), life, lag, steady);
  }

  lemma KeepsBoth<D(!new)>(r: State<D> -> bool, library: seq<L.Item<D>>, life: nat, lag: nat) returns (t: State<D>)
    requires Closed(r, life, lag, false) && r(Start(library))
    ensures r(t) && !OneEach(t)
  {
    FirstFinalize(r, library, life, lag, false);
    Relaunch(r, library, 0, life, lag, false);
    var s := Relaunched(library, 0);
    var crashed := s.(claims := map[], recovered := false);
    assert Moves(r, s, Crash, crashed, life, lag, false);
    TwoSessions();
    t := s.(claims := map[]);
    assert Moves(r, crashed, Restart({}), t, life, lag, false);
    assert t.registry[0].key.gameId == t.registry[1].key.gameId;
  }

  /** A restart that judges neither dead forgets the claim and keeps both. */
  lemma UnsteadyKeepsBoth<D(!new)>(library: seq<L.Item<D>>, life: nat, lag: nat) returns (steps: seq<Step<D>>)
    ensures IsRun(Start(library), steps, life, lag, false) && !OneEach(After(Start(library), steps))
  {
    var init := Start(library);
    ReachedClosed(init, life, lag, false);
    var t := KeepsBoth(Reached(init, life, lag, false), library, life, lag);
    steps := RunTo(init, t, life, lag, false);
  }

  // Pass 3, which has its snapshot, finds the other game ended.
  lemma FindsOther<D(!new)>(r: State<D> -> bool, s: State<D>, life: nat, lag: nat, steady: bool)
    requires Closed(r, life, lag, steady) && r(s) && Timely(s, life, lag)
    requires s.registry == [SESSION, AGAIN, OTHER] && s.passes == map[3 := Scanning(s.now, s.registry)]
    ensures r(s.(passes := map[3 := Finishing(s.now, [OTHER.key])], finished := s.finished + {OTHER.key}))
  {
    ThreeSessions();
    var found := s.(passes := map[3 := Finishing(s.now, [OTHER.key])], finished := s.finished + {OTHER.key});
    assert s.passes[3 := Finishing(s.now, [OTHER.key])] == found.passes;
    assert Next(s, Scan(3, {OTHER.key}, map[])) == found;
    assert Moves(r, s, Scan(3, {OTHER.key}, map[]), found, life, lag, steady);
  }

  lemma ClaimsOther<D(!new)>(r: State<D> -> bool, s: State<D>, life: nat, lag: nat, steady: bool)
    returns (t: State<D>)
    requires Closed(r, life, lag, steady) && r(s) && Timely(s, life, lag)
    requires s.passes == map[3 := Finishing(s.now, [OTHER.key])] && s.recovered
    requires Prune(s.claims, s.now) == map[] && s.registry == [SESSION, AGAIN, OTHER]
    ensures r(t) && !OneEach(t)
  {
    t := s.(claims := map[OTHER.key := Claim(false, s.now)], passes := map[3 := Writing(s.now, OTHER.key, [])]);
    assert Next(s, TryClaim(3)) == t by { assert [OTHER.key][1..] == []; }
    assert Moves(r, s, TryClaim(3), t, life, lag, steady);
    assert t.registry[0].key.gameId == t.registry[1].key.gameId;
  }

  /** And a day later a third session, of another game, is launched and in the snapshot of a pass. */
  ghost function Third<D>(library: seq<L.Item<D>>): State<D> {
    Relaunched(library, DAY + 1).(registry := [SESSION, AGAIN, OTHER], launched := {KEY, AGAIN.key, OTHER.key},
                                  passes := map[3 := Scanning(DAY + 1, [SESSION, AGAIN, OTHER])])
  }

  lemma LaunchesOther<D(!new)>(r: State<D> -> bool, library: seq<L.Item<D>>, life: nat, lag: nat, steady: bool)
    requires Closed(r, life, lag, steady) && r(Start(library)) && lag > DAY
    ensures r(Third(library))
  {
    FirstFinalize(r, library, life, lag, steady);
    Waits(r, Leftover(library), DAY + 1, life, lag, steady);
    Relaunch(r, library, DAY + 1, life, lag, steady);
    assert [SESSION, AGAIN] + [OTHER] == Third(library).registry;
    var launched := Third(library).(passes := map[]);
    assert Moves(r, Relaunched(library, DAY + 1), Launch(OTHER), launched, life, lag, steady);
    assert Moves(r, launched, Begin(3), Third(library), life, lag, steady);
  }

  /** A removal that lags over a day: the claim of another game's session forgets the
      old one. */
  lemma LateRemovalKeepsBoth<D(!new)>(library: seq<L.Item<D>>, life: nat, lag: nat, steady: bool)
    returns (steps: seq<Step<D>>)
    requires lag > DAY
    ensures IsRun(Start(library), steps, life, lag, steady) && !OneEach(After(Start(library), steps))
  {
    var init := Start(library);
    ReachedClosed(init, life, lag, steady);
    var t := ForgetsOld(Reached(init, life, lag, steady), library, life, lag, steady);
    steps := RunTo(init, t, life, lag, steady);
  }

  lemma ForgetsOld<D(!new)>(r: State<D> -> bool, library: seq<L.Item<D>>, life: nat, lag: nat, steady: bool)
    returns (t: State<D>)
    requires Closed(r, life, lag, steady) && r(Start(library)) && lag > DAY
    ensures r(t) && !OneEach(t)
  {
    LaunchesOther(r, library, life, lag, steady);
    var s := Third(library);
    FindsOther(r, s, life, lag, steady);
    t := ClaimsOther(r, s.(passes := map[3 := Finishing(s.now, [OTHER.key])], finished := s.finished + {OTHER.key}),
                     life, lag, steady);
  }

  /** Over every run a game has at most one session that is not being finalized,
      exactly when a claimed session leaves the registry within the day claims are
      kept and restarts judge dead what a pass found dead. How long a pass takes does
      not matter. */
  lemma OneLiveExactly<D(!new)>(life: nat, lag: nat, steady: bool)
    ensures (forall init: State<D>, steps: seq<Step<D>> | IsRun(init, steps, life, lag, steady) ::
              OneEach(After(init, steps)))
       <==> lag <= 86400 && steady
  {
    if lag > DAY {
      var steps: seq<Step<D>> := LateRemovalKeepsBoth([], life, lag, steady);
    } else if !steady {
      var steps: seq<Step<D>> := UnsteadyKeepsBoth([], life, lag);
    } else {
      forall init: State<D>, steps: seq<Step<D>> | IsRun(init, steps, life, lag, true)
        ensures OneEach(After(init, steps))
      {
        OneLiveSession(init, steps, life, lag);
      }
    }
  }

  // ---------------------------------------------------------------- launch by launch

  ghost predicate Registers<D>(s: State<D>, step: Step<D>, key: Key) {
    && step.Launch? && step.session.key == key
    && s.recovered && !IsDuplicate(s.registry, key.gameId, s.claims)
  }

  /** How many launches registered a session with the key. */
  ghost function Launches<D>(init: State<D>, steps: seq<Step<D>>, key: Key): nat {
    if steps == [] then 0
    else
      var front := steps[..|steps| - 1];
      Launches(init, front, key) + if Registers(After(init, front), steps[|steps| - 1], key) then 1 else 0
  }

  function Registered(sessions: seq<Session>, key: Key): nat {
    if sessions == [] then 0
    else Registered(sessions[..|sessions| - 1], key) + if sessions[|sessions| - 1].key == key then 1 else 0
  }

  function Finalizes(attempts: seq<Attempt>, key: Key): nat {
    if attempts == [] then 0
    else Finalizes(attempts[..|attempts| - 1], key) + if attempts[|attempts| - 1].key == key then 1 else 0
  }

  /** Every launch still has its session registered, or a finalize of its own, unless a
      restart dropped the key. */
  ghost predicate EachFinalized<D>(init: State<D>, steps: seq<Step<D>>) {
    var s := After(init, steps);
    forall key :: key in s.dropped ||
      Launches(init, steps, key) <= Registered(s.registry, key) + Finalizes(s.attempts, key)
  }

  /** No launch uses the key of an earlier one. */
  ghost predicate FreshKeys<D>(init: State<D>, steps: seq<Step<D>>) {
    steps != [] ==>
      var front, last := steps[..|steps| - 1], steps[|steps| - 1];
      FreshKeys(init, front) && (last.Launch? ==> last.session.key !in After(init, front).launched)
  }

  lemma {:induction false} LaunchedOnce<D>(init: State<D>, steps: seq<Step<D>>, key: Key)
    requires Initial(init) && FreshKeys(init, steps)
    ensures Launches(init, steps, key) == if key in After(init, steps).launched then 1 else 0
  {
    if steps != [] {
      LaunchedOnce(init, steps[..|steps| - 1], key);
    }
  }

  lemma {:induction false} RegisteredSome(sessions: seq<Session>, key: Key)
    requires key in Keys(sessions)
    ensures Registered(sessions, key) >= 1
  {
    var front, last := sessions[..|sessions| - 1], sessions[|sessions| - 1];
    if last.key != key {
      var i :| 0 <= i < |sessions| && sessions[i].key == key;
      assert front[i] in front;
      RegisteredSome(front, key);
    }
  }

  lemma {:induction false} FinalizesSome(attempts: seq<Attempt>, key: Key)
    requires key in AttemptKeys(attempts)
    ensures Finalizes(attempts, key) >= 1
  {
    var front, last := attempts[..|attempts| - 1], attempts[|attempts| - 1];
    if last.key != key {
      var i :| 0 <= i < |attempts| && attempts[i].key == key;
      assert front[i] in front;
      FinalizesSome(front, key);
    }
  }

  /** With fresh keys every launch's session leaves the registry only finalized. */
  lemma FreshAreFinalized<D>(init: State<D>, steps: seq<Step<D>>)
    requires Initial(init) && FreshKeys(init, steps)
    ensures EachFinalized(init, steps)
  {
    var s := After(init, steps);
    forall key | key !in s.dropped
      ensures Launches(init, steps, key) <= Registered(s.registry, key) + Finalizes(s.attempts, key)
    {
      LaunchedOnce(init, steps, key);
      LeavesOnlyFinalized(init, steps);
      if key in Keys(s.registry) {
        RegisteredSome(s.registry, key);
      } else if key in AttemptKeys(s.attempts) {
        FinalizesSome(s.attempts, key);
      }
    }
  }

  lemma {:induction false} RunIsFresh<D>(init: State<D>, steps: seq<Step<D>>, life: nat, lag: nat, steady: bool)
    requires IsRun(init, steps, life, lag, steady)
    ensures FreshKeys(init, steps)
  {
    if steps != [] {
      RunIsFresh(init, steps[..|steps| - 1], life, lag, steady);
    }
  }

  lemma Then<D>(init: State<D>, steps: seq<Step<D>>, step: Step<D>, key: Key) returns (more: seq<Step<D>>)
    ensures After(init, more) == Next(After(init, steps), step)
    ensures Launches(init, more, key) ==
      Launches(init, steps, key) + if Registers(After(init, steps), step, key) then 1 else 0
  {
    more := steps + [step];
    assert more[..|more| - 1] == steps;
  }

  /** The states that steps with two launches of the key lead to. */
  ghost function TwiceLaunched<D(!new)>(init: State<D>): State<D> -> bool {
    (s: State<D>) => KEY in s.launched && exists steps: seq<Step<D>> ::
      After(init, steps) == s && Launches(init, steps, KEY) == 2
  }

  lemma NotAgain<D>(s: State<D>, step: Step<D>)
    requires Allowed(s, step, true) && KEY in s.launched
    ensures !Registers(s, step, KEY) && KEY in Next(s, step).launched
  {
  }

  lemma TwiceClosed<D(!new)>(init: State<D>, life: nat, lag: nat)
    ensures Closed(TwiceLaunched(init), life, lag, true)
  {
    var r := TwiceLaunched(init);
    forall s, step, n | Moves(r, s, step, n, life, lag, true)
      ensures r(n)
    {
      NotAgain(s, step);
      var steps :| After(init, steps) == s && Launches(init, steps, KEY) == 2;
      var more := Then(init, steps, step, KEY);
      assert After(init, more) == n && Launches(init, more, KEY) == 2;
    }
  }

  // A session was finalized and left, and its game is launched with the same key.
  lemma LaunchesAgain<D(!new)>(library: seq<L.Item<D>>)
    ensures TwiceLaunched(Start(library))(Leftover(library))
  {
    var init := Start(library);
    ReachedClosed(init, 0, 0, true);
    FirstFinalize(Reached(init, 0, 0, true), library, 0, 0, true);
    FoundDone(Reached(init, 0, 0, true), library, 0, 0, true);
    var steps := RunTo(init, Leftover(library).(registry := []), 0, 0, true);
    RunIsFresh(init, steps, 0, 0, true);
    LaunchedOnce(init, steps, KEY);
    assert [] + [SESSION] == [SESSION];
    var more := Then(init, steps, Launch(SESSION), KEY);
  }

  /** With a key used again, the second session finds the first one's claim done and
      leaves without a finalize of its own. */
  lemma AReusedKeyIsNotFinalized<D(!new)>(library: seq<L.Item<D>>) returns (steps: seq<Step<D>>)
    ensures Initial(Start(library)) && !EachFinalized(Start(library), steps)
  {
    var init := Start(library);
    LaunchesAgain(library);
    TwiceClosed(init, 0, 0);
    FoundDone(TwiceLaunched(init), library, 0, 0, true);
    var s := Leftover(library).(registry := []);
    steps :| After(init, steps) == s && Launches(init, steps, KEY) == 2;
    assert Finalizes(s.attempts, KEY) == 1 by { assert s.attempts[..0] == []; }
  }

  /** Every launch's session leaves the registry only with a finalize of its own, or
      dropped by a restart, over any steps whatever, exactly when keys are fresh. */
  lemma EachFinalizedExactly<D(!new)>(newKeys: bool)
    ensures (forall init: State<D>, steps: seq<Step<D>> | Initial(init) && (newKeys ==> FreshKeys(init, steps)) ::
              EachFinalized(init, steps))
       <==> newKeys
  {
    if newKeys {
      forall init: State<D>, steps: seq<Step<D>> | Initial(init) && FreshKeys(init, steps)
        ensures EachFinalized(init, steps)
      {
        FreshAreFinalized(init, steps);
      }
    } else {
      var steps: seq<Step<D>> := AReusedKeyIsNotFinalized([]);
    }
  }
}
