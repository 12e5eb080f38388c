/** Every run of the daemon's sessions: launches, overlapping synchronize passes,
    client saves, crashes and restarts, step by step. */
module SessionRuns {
  import opened Wrappers
  import opened Sessions
  import L = Library

  // ------------------------------------------------------------------------- state

  /** A synchronize pass, by what it does next. `begun` is when it took its
      snapshot; `queue` are the finished keys it has not come to yet. */
  datatype Pass =
    | Scanning(begun: nat, snapshot: seq<Session>)
    | Finishing(begun: nat, queue: seq<Key>)
    | Checking(begun: nat, key: Key, queue: seq<Key>)
    | Writing(begun: nat, key: Key, queue: seq<Key>)
    | Marking(begun: nat, key: Key, queue: seq<Key>)
    | Removing(begun: nat, key: Key, queue: seq<Key>)

  /** One finalize: the playtime it had to write and whether the write succeeded. */
  datatype Attempt = Attempt(key: Key, elapsed: nat, written: bool)

  /** The registry and the library are on disk; claims and passes die with the
      daemon. The rest is history: keys ever registered, keys a pass ever found
      finished, keys a restart dropped, finalizes done and changes made. */
  datatype State<D> = State(
    now: nat, registry: seq<Session>, claims: Claims, passes: map<nat, Pass>, recovered: bool,
    library: seq<L.Item<D>>,
    launched: set<Key>, finished: set<Key>, dropped: set<Key>,
    attempts: seq<Attempt>, changes: seq<L.Change<D>>)

  datatype Step<D> =
    | Tick(seconds: nat)
    | Launch(session: Session)
    | Begin(pass: nat)
    | Abort(pass: nat)
    | Scan(pass: nat, dead: set<Key>, updates: map<Key, Update>)
    | TryClaim(pass: nat)
    | Check(pass: nat)
    | Write(pass: nat, elapsed: nat, written: bool)
    | Mark(pass: nat)
    | Remove(pass: nat, written: bool)
    | End(pass: nat)
    | Change(change: L.Change<D>)
    | Crash
    | Restart(dead: set<Key>)

  function KeySeq(sessions: seq<Session>, dead: set<Key>): seq<Key> {
    if sessions == [] then []
    else
      var last := sessions[|sessions| - 1].key;
      KeySeq(sessions[..|sessions| - 1], dead) + if last in dead then [last] else []
  }

  ghost function Changed<D>(s: State<D>, change: L.Change<D>): State<D> {
    s.(library := L.Apply(s.library, change), changes := s.changes + [change])
  }

  /** One step; a step that is not possible changes nothing. */
  ghost function Next<D>(s: State<D>, step: Step<D>): State<D> {
    match step
    case Tick(seconds) => s.(now := s.now + seconds)
    case Launch(session) =>
      if !s.recovered || IsDuplicate(s.registry, session.key.gameId, s.claims) then s
      else s.(registry := AfterRegister(s.registry, session, s.claims), launched := s.launched + {session.key})
    case Begin(pass) =>
      if !s.recovered || pass in s.passes then s
      else s.(passes := s.passes[pass := Scanning(s.now, s.registry)])
    case Abort(pass) =>
      if pass !in s.passes || !s.passes[pass].Scanning? then s
      else s.(passes := s.passes - {pass})
    case Scan(pass, dead, updates) =>
      if pass !in s.passes || !s.passes[pass].Scanning? then s
      else
        var p := s.passes[pass];
        s.(registry := UpdatedAll(s.registry, updates),
           passes := s.passes[pass := Finishing(p.begun, KeySeq(p.snapshot, dead))],
           finished := s.finished + (dead * Keys(p.snapshot)))
    case TryClaim(pass) =>
      if pass !in s.passes || !s.passes[pass].Finishing? || s.passes[pass].queue == [] then s
      else
        var p := s.passes[pass];
        var key, rest := p.queue[0], p.queue[1..];
        s.(claims := AfterClaim(s.claims, key, s.now),
           passes := s.passes[pass := if WinsClaim(s.claims, key, s.now) then Writing(p.begun, key, rest)
                                      else Checking(p.begun, key, rest)])
    case Check(pass) =>
      if pass !in s.passes || !s.passes[pass].Checking? then s
      else
        var p := s.passes[pass];
        s.(passes := s.passes[pass := if IsDone(s.claims, p.key) then Removing(p.begun, p.key, p.queue)
                                      else Finishing(p.begun, p.queue)])
    case Write(pass, elapsed, written) =>
      if pass !in s.passes || !s.passes[pass].Writing? then s
      else
        var p := s.passes[pass];
        var after := s.(attempts := s.attempts + [Attempt(p.key, elapsed, written)],
                        passes := s.passes[pass := Marking(p.begun, p.key, p.queue)]);
        if written then Changed(after, L.AddPlaytime(p.key.gameId, elapsed)) else after
    case Mark(pass) =>
      if pass !in s.passes || !s.passes[pass].Marking? then s
      else
        var p := s.passes[pass];
        s.(claims := AfterMark(s.claims, p.key, s.now),
           passes := s.passes[pass := Removing(p.begun, p.key, p.queue)])
    case Remove(pass, written) =>
      if pass !in s.passes || !s.passes[pass].Removing? then s
      else
        var p := s.passes[pass];
        s.(registry := if written then Without(s.registry, {p.key}) else s.registry,
           passes := s.passes[pass := Finishing(p.begun, p.queue)])
    case End(pass) =>
      if pass !in s.passes || !s.passes[pass].Finishing? || s.passes[pass].queue != [] then s
      else s.(passes := s.passes - {pass})
    case Change(change) =>
      if change.AddPlaytime? then s else Changed(s, change)
    case Crash => s.(claims := map[], passes := map[], recovered := false)
    case Restart(dead) =>
      if s.recovered then s
      else s.(registry := Without(s.registry, dead), recovered := true,
              dropped := s.dropped + (dead * Keys(s.registry)))
  }

  // ------------------------------------------------------------------- assumptions

  /** A launch's key is fresh, and, where judgement is `steady`, a restart finds dead what a pass found dead. */
  ghost predicate Allowed<D>(s: State<D>, step: Step<D>, steady: bool) {
    && (step.Launch? ==> step.session.key !in s.launched)
    && (step.Restart? && steady ==> s.finished * Keys(s.registry) <= step.dead)
  }

  /** A pass lasts at most `pass` seconds, and a claimed session leaves the
      registry at most `lag` seconds after its claim. */
  ghost predicate Timely<D>(s: State<D>, pass: nat, lag: nat) {
    && (forall p | p in s.passes :: s.now <= s.passes[p].begun + pass)
    && (forall key | key in s.claims && key in Keys(s.registry) :: s.now <= s.claims[key].at + lag)
  }

  ghost predicate Initial<D>(s: State<D>) {
    && s.registry == [] && s.claims == map[] && s.passes == map[] && s.recovered
    && s.launched == {} && s.finished == {} && s.dropped == {} && s.attempts == [] && s.changes == []
  }

  ghost function After<D>(init: State<D>, steps: seq<Step<D>>): State<D> {
    if steps == [] then init else Next(After(init, steps[..|steps| - 1]), steps[|steps| - 1])
  }

  /** A run all of whose steps meet the assumptions. */
  ghost predicate IsRun<D>(init: State<D>, steps: seq<Step<D>>, pass: nat, lag: nat, steady: bool) {
    Initial(init) &&
    (steps != [] ==>
      var front := steps[..|steps| - 1];
      && IsRun(init, front, pass, lag, steady)
      && Allowed(After(init, front), steps[|steps| - 1], steady)
      && Timely(After(init, steps), pass, lag))
  }

  // --------------------------------------------------------------------- invariant

  ghost function AttemptKeys(attempts: seq<Attempt>): set<Key> {
    set a | a in attempts :: a.key
  }

  /** The keys a pass may still claim. */
  ghost function Pending(p: Pass): set<Key> {
    match p
    case Scanning(_, snapshot) => Keys(snapshot)
    case Finishing(_, queue) => set k | k in queue
    case Checking(_, _, queue) => set k | k in queue
    case Writing(_, _, queue) => set k | k in queue
    case Marking(_, _, queue) => set k | k in queue
    case Removing(_, _, queue) => set k | k in queue
  }

  ghost predicate Distinct<T>(s: seq<T>) {
    forall i, j | 0 <= i < j < |s| :: s[i] != s[j]
  }

  /** A pass comes to each key once. */
  ghost predicate PassOk(p: Pass) {
    match p
    case Scanning(_, snapshot) => DistinctKeys(snapshot)
    case Finishing(_, queue) => Distinct(queue)
    case Checking(_, key, queue) => Distinct([key] + queue)
    case Writing(_, key, queue) => Distinct([key] + queue)
    case Marking(_, key, queue) => Distinct([key] + queue)
    case Removing(_, key, queue) => Distinct([key] + queue)
  }

  /** No pass can claim the key any more: it is claimed, or gone from the registry
      and from every snapshot. */
  ghost predicate Shut<D>(s: State<D>, key: Key) {
    key in s.claims || (key !in Keys(s.registry) && forall p | p in s.passes :: key !in Pending(s.passes[p]))
  }

  ghost predicate AtMostOnce<D>(s: State<D>) {
    forall i, j | 0 <= i < j < |s.attempts| :: s.attempts[i].key != s.attempts[j].key
  }

  ghost function KeyOf(p: Pass): set<Key> {
    if p.Scanning? || p.Finishing? then {} else {p.key}
  }

  ghost predicate RegistryOk<D>(s: State<D>) {
    DistinctKeys(s.registry) && Keys(s.registry) <= s.launched && s.finished <= s.launched
  }

  ghost predicate PassesOk<D>(s: State<D>) {
    && (!s.recovered ==> s.passes == map[] && s.claims == map[])
    && forall p | p in s.passes ::
         && PassOk(s.passes[p]) && s.passes[p].begun <= s.now
         && Pending(s.passes[p]) <= s.launched
         && (!s.passes[p].Scanning? ==> Pending(s.passes[p]) + KeyOf(s.passes[p]) <= s.finished)
  }

  ghost predicate ClaimsOk<D>(s: State<D>, lag: nat) {
    && (forall key | key in s.claims :: key in s.finished && s.claims[key].at <= s.now)
    && (forall p, key | p in s.passes && key in Pending(s.passes[p]) && key in s.claims ::
          s.passes[p].begun <= s.claims[key].at + lag)
  }

  ghost predicate TakenShut<D>(s: State<D>) {
    && AttemptKeys(s.attempts) <= s.finished
    && (s.recovered ==>
          && (forall key | key in AttemptKeys(s.attempts) :: Shut(s, key))
          && (forall p | p in s.passes && s.passes[p].Writing? :: Shut(s, s.passes[p].key)))
  }

  ghost predicate OneWriter<D>(s: State<D>) {
    && AtMostOnce(s)
    && (forall p | p in s.passes && s.passes[p].Writing? :: s.passes[p].key !in AttemptKeys(s.attempts))
    && (forall p, q | p in s.passes && q in s.passes && p != q && s.passes[p].Writing? && s.passes[q].Writing? ::
          s.passes[p].key != s.passes[q].key)
  }

  ghost predicate Inv<D>(s: State<D>, lag: nat) {
    && RegistryOk(s) && PassesOk(s) && ClaimsOk(s, lag) && TakenShut(s) && OneWriter(s)
  }

  // ------------------------------------------------------------ preservation, by part

  lemma {:induction false} KeySeqMembers(sessions: seq<Session>, dead: set<Key>)
    ensures forall k | k in KeySeq(sessions, dead) :: k in dead && k in Keys(sessions)
  {
    if sessions != [] {
      var last := |sessions| - 1;
      KeySeqMembers(sessions[..last], dead);
      KeysSnoc(sessions[..last], sessions[last]);
      assert sessions == sessions[..last] + [sessions[last]];
    }
  }

  lemma {:induction false} KeySeqDistinct(sessions: seq<Session>, dead: set<Key>)
    requires DistinctKeys(sessions)
    ensures Distinct(KeySeq(sessions, dead))
  {
    if sessions != [] {
      var last := |sessions| - 1;
      KeySeqDistinct(sessions[..last], dead);
      KeySeqMembers(sessions[..last], dead);
      assert sessions[last].key !in KeySeq(sessions[..last], dead);
    }
  }

  lemma DistinctTail(key: Key, queue: seq<Key>)
    requires Distinct([key] + queue)
    ensures Distinct(queue) && key !in queue
  {
    var all := [key] + queue;
    forall i, j | 0 <= i < j < |queue| ensures queue[i] != queue[j] {
      assert all[i + 1] != all[j + 1];
    }
    forall i | 0 <= i < |queue| ensures queue[i] != key {
      assert all[0] != all[i + 1];
    }
  }

  /** A claim is only ever forgotten once its session has left the registry and
      every snapshot. */
  lemma PruneSafe<D>(s: State<D>, key: Key, pass: nat, lag: nat)
    requires Inv(s, lag) && Timely(s, pass, lag) && pass + lag <= DAY
    requires key in s.claims && key !in Prune(s.claims, s.now)
    ensures key !in Keys(s.registry)
    ensures forall p | p in s.passes :: key !in Pending(s.passes[p])
  {
  }

  /** Facts about the pass a step is about. */
  lemma PassFacts<D>(s: State<D>, pass: nat)
    requires PassesOk(s) && pass in s.passes
    ensures var p := s.passes[pass];
      && (p.Scanning? ==> forall dead ::
            && Distinct(KeySeq(p.snapshot, dead))
            && forall k | k in KeySeq(p.snapshot, dead) :: k in dead && k in Keys(p.snapshot))
      && (p.Finishing? && p.queue != [] ==>
            && p.queue == [p.queue[0]] + p.queue[1..]
            && Pending(p) == {p.queue[0]} + (set k | k in p.queue[1..]))
      && (!p.Scanning? && !p.Finishing? ==> Distinct(p.queue) && p.key !in p.queue)
  {
    var p := s.passes[pass];
    match p
    case Scanning(_, snapshot) =>
      forall dead ensures Distinct(KeySeq(snapshot, dead))
        && forall k | k in KeySeq(snapshot, dead) :: k in dead && k in Keys(snapshot)
      {
        KeySeqDistinct(snapshot, dead);
        KeySeqMembers(snapshot, dead);
      }
    case Finishing(_, queue) =>
    case _ => DistinctTail(p.key, p.queue);
  }

  lemma ScanPasses<D>(s: State<D>, pass: nat, dead: set<Key>, updates: map<Key, Update>, lag: nat)
    requires RegistryOk(s) && PassesOk(s) && ClaimsOk(s, lag)
    ensures RegistryOk(Next(s, Scan(pass, dead, updates)))
    ensures PassesOk(Next(s, Scan(pass, dead, updates))) && ClaimsOk(Next(s, Scan(pass, dead, updates)), lag)
  {
    UpdatedKeys(s.registry, updates);
    if pass in s.passes { PassFacts(s, pass); }
  }

  lemma ScanTaken<D>(s: State<D>, pass: nat, dead: set<Key>, updates: map<Key, Update>, lag: nat)
    requires PassesOk(s) && TakenShut(s) && OneWriter(s)
    ensures TakenShut(Next(s, Scan(pass, dead, updates))) && OneWriter(Next(s, Scan(pass, dead, updates)))
  {
    UpdatedKeys(s.registry, updates);
    if pass in s.passes { PassFacts(s, pass); }
  }

  lemma ScanInv<D>(s: State<D>, pass: nat, dead: set<Key>, updates: map<Key, Update>, lag: nat)
    requires Inv(s, lag)
    ensures Inv(Next(s, Scan(pass, dead, updates)), lag)
  {
    ScanPasses(s, pass, dead, updates, lag);
    ScanTaken(s, pass, dead, updates, lag);
  }

  lemma ClaimPasses<D>(s: State<D>, pass: nat, life: nat, lag: nat)
    requires Inv(s, lag) && Timely(s, life, lag) && life + lag <= DAY
    ensures RegistryOk(Next(s, TryClaim(pass)))
    ensures PassesOk(Next(s, TryClaim(pass))) && ClaimsOk(Next(s, TryClaim(pass)), lag)
  {
    if pass in s.passes { PassFacts(s, pass); }
  }

  /** The one that wins a claim is the first: the session is not attempted and
      nobody is writing it. */
  lemma WinnerIsFirst<D>(s: State<D>, pass: nat, life: nat, lag: nat)
    requires Inv(s, lag) && Timely(s, life, lag) && life + lag <= DAY
    requires pass in s.passes && s.passes[pass].Finishing? && s.passes[pass].queue != []
    requires WinsClaim(s.claims, s.passes[pass].queue[0], s.now)
    ensures s.passes[pass].queue[0] !in AttemptKeys(s.attempts)
    ensures forall p | p in s.passes && s.passes[p].Writing? :: s.passes[p].key != s.passes[pass].queue[0]
  {
    var key := s.passes[pass].queue[0];
    PassFacts(s, pass);
    assert key in Pending(s.passes[pass]);
    if key in s.claims { PruneSafe(s, key, life, lag); }
    assert !Shut(s, key);
  }

  lemma ClaimShuts<D>(s: State<D>, pass: nat, life: nat, lag: nat)
    requires Inv(s, lag) && Timely(s, life, lag) && life + lag <= DAY
    ensures TakenShut(Next(s, TryClaim(pass)))
  {
    if pass in s.passes && s.passes[pass].Finishing? && s.passes[pass].queue != [] {
      var n := Next(s, TryClaim(pass));
      PassFacts(s, pass);
      assert n.claims.Keys == Prune(s.claims, s.now).Keys + {s.passes[pass].queue[0]};
      forall k | Shut(s, k) ensures Shut(n, k) {
        if k in s.claims && k !in Prune(s.claims, s.now) { PruneSafe(s, k, life, lag); }
      }
    }
  }

  lemma ClaimOneWriter<D>(s: State<D>, pass: nat, life: nat, lag: nat)
    requires Inv(s, lag) && Timely(s, life, lag) && life + lag <= DAY
    ensures OneWriter(Next(s, TryClaim(pass)))
  {
    if pass in s.passes && s.passes[pass].Finishing? && s.passes[pass].queue != [] {
      if WinsClaim(s.claims, s.passes[pass].queue[0], s.now) { WinnerIsFirst(s, pass, life, lag); }
    }
  }

  lemma ClaimInv<D>(s: State<D>, pass: nat, life: nat, lag: nat)
    requires Inv(s, lag) && Timely(s, life, lag) && life + lag <= DAY
    ensures Inv(Next(s, TryClaim(pass)), lag)
  {
    ClaimPasses(s, pass, life, lag);
    ClaimShuts(s, pass, life, lag);
    ClaimOneWriter(s, pass, life, lag);
  }

  lemma CheckPasses<D>(s: State<D>, pass: nat, lag: nat)
    requires RegistryOk(s) && PassesOk(s) && ClaimsOk(s, lag)
    ensures RegistryOk(Next(s, Check(pass))) && PassesOk(Next(s, Check(pass))) && ClaimsOk(Next(s, Check(pass)), lag)
  {
    if pass in s.passes { PassFacts(s, pass); }
  }

  lemma CheckInv<D>(s: State<D>, pass: nat, lag: nat)
    requires Inv(s, lag)
    ensures Inv(Next(s, Check(pass)), lag)
  {
    CheckPasses(s, pass, lag);
  }

  lemma WritePasses<D>(s: State<D>, pass: nat, elapsed: nat, written: bool, lag: nat)
    requires RegistryOk(s) && PassesOk(s) && ClaimsOk(s, lag)
    ensures RegistryOk(Next(s, Write(pass, elapsed, written)))
    ensures PassesOk(Next(s, Write(pass, elapsed, written))) && ClaimsOk(Next(s, Write(pass, elapsed, written)), lag)
  {
    if pass in s.passes && s.passes[pass].Writing? {
      PassFacts(s, pass);
    }
  }

  lemma WriteShuts<D>(s: State<D>, pass: nat, elapsed: nat, written: bool, lag: nat)
    requires PassesOk(s) && TakenShut(s)
    ensures TakenShut(Next(s, Write(pass, elapsed, written)))
  {
    if pass in s.passes && s.passes[pass].Writing? {
      PassFacts(s, pass);
      forall k | Shut(s, k) ensures Shut(Next(s, Write(pass, elapsed, written)), k) {
      }
    }
  }

  lemma WriteOneWriter<D>(s: State<D>, pass: nat, elapsed: nat, written: bool)
    requires OneWriter(s)
    ensures OneWriter(Next(s, Write(pass, elapsed, written)))
  {
    if pass in s.passes && s.passes[pass].Writing? {
      forall i | 0 <= i < |s.attempts| ensures s.attempts[i].key in AttemptKeys(s.attempts) {
        assert s.attempts[i] in s.attempts;
      }
    }
  }

  lemma WriteInv<D>(s: State<D>, pass: nat, elapsed: nat, written: bool, lag: nat)
    requires Inv(s, lag)
    ensures Inv(Next(s, Write(pass, elapsed, written)), lag)
  {
    WritePasses(s, pass, elapsed, written, lag);
    WriteShuts(s, pass, elapsed, written, lag);
    WriteOneWriter(s, pass, elapsed, written);
  }

  lemma MarkPasses<D>(s: State<D>, pass: nat, lag: nat)
    requires RegistryOk(s) && PassesOk(s) && ClaimsOk(s, lag)
    ensures RegistryOk(Next(s, Mark(pass))) && PassesOk(Next(s, Mark(pass))) && ClaimsOk(Next(s, Mark(pass)), lag)
  {
    if pass in s.passes { PassFacts(s, pass); }
  }

  lemma MarkTaken<D>(s: State<D>, pass: nat, lag: nat)
    requires PassesOk(s) && TakenShut(s) && OneWriter(s)
    ensures TakenShut(Next(s, Mark(pass))) && OneWriter(Next(s, Mark(pass)))
  {
    if pass in s.passes { PassFacts(s, pass); }
  }

  lemma MarkInv<D>(s: State<D>, pass: nat, lag: nat)
    requires Inv(s, lag)
    ensures Inv(Next(s, Mark(pass)), lag)
  {
    MarkPasses(s, pass, lag);
    MarkTaken(s, pass, lag);
  }

  lemma RemovePasses<D>(s: State<D>, pass: nat, written: bool, lag: nat)
    requires RegistryOk(s) && PassesOk(s) && ClaimsOk(s, lag)
    ensures RegistryOk(Next(s, Remove(pass, written)))
    ensures PassesOk(Next(s, Remove(pass, written))) && ClaimsOk(Next(s, Remove(pass, written)), lag)
  {
    if pass in s.passes && s.passes[pass].Removing? {
      var key := s.passes[pass].key;
      PassFacts(s, pass);
      WithoutKeys(s.registry, {key});
      WithoutKeeps(s.registry, {key}, s.finished);
    }
  }

  lemma RemoveTaken<D>(s: State<D>, pass: nat, written: bool, lag: nat)
    requires PassesOk(s) && TakenShut(s) && OneWriter(s)
    ensures TakenShut(Next(s, Remove(pass, written))) && OneWriter(Next(s, Remove(pass, written)))
  {
    if pass in s.passes && s.passes[pass].Removing? {
      var key := s.passes[pass].key;
      PassFacts(s, pass);
      WithoutKeys(s.registry, {key});
    }
  }

  lemma RemoveInv<D>(s: State<D>, pass: nat, written: bool, lag: nat)
    requires Inv(s, lag)
    ensures Inv(Next(s, Remove(pass, written)), lag)
  {
    RemovePasses(s, pass, written, lag);
    RemoveTaken(s, pass, written, lag);
  }

  lemma RestartInv<D>(s: State<D>, dead: set<Key>, lag: nat)
    requires Inv(s, lag) && s.finished * Keys(s.registry) <= dead
    ensures Inv(Next(s, Restart(dead)), lag)
  {
    WithoutKeys(s.registry, dead);
    WithoutKeeps(s.registry, dead, s.finished);
  }

  lemma LaunchInv<D>(s: State<D>, session: Session, lag: nat)
    requires Inv(s, lag) && session.key !in s.launched
    ensures Inv(Next(s, Launch(session)), lag)
  {
    KeysSnoc(s.registry, session);
    forall i | 0 <= i < |s.registry| ensures s.registry[i].key in s.launched {
      assert s.registry[i].key in Keys(s.registry);
    }
  }

  // A scan's findings reach the sessions they are about, and no other way.
  lemma ScanLearns<D>(s: State<D>, pass: nat, dead: set<Key>, updates: map<Key, Update>)
    requires pass in s.passes && s.passes[pass].Scanning?
    ensures var t := Next(s, Scan(pass, dead, updates));
      && |t.registry| == |s.registry|
      && forall i | 0 <= i < |s.registry| :: Learned(s.registry[i], t.registry[i], updates)
  {
  }

  lemma BeginInv<D>(s: State<D>, pass: nat, life: nat, lag: nat)
    requires Inv(s, lag) && Timely(s, life, lag)
    ensures Inv(Next(s, Begin(pass)), lag)
  {
  }

  lemma OtherInv<D>(s: State<D>, step: Step<D>, lag: nat)
    requires Inv(s, lag)
    requires step.Tick? || step.Abort? || step.End? || step.Change? || step.Crash?
    ensures Inv(Next(s, step), lag)
  {
  }

  lemma StepInv<D>(s: State<D>, step: Step<D>, life: nat, lag: nat)
    requires Inv(s, lag) && Allowed(s, step, true) && Timely(s, life, lag) && life + lag <= DAY
    ensures Inv(Next(s, step), lag)
  {
    match step
    case Launch(session) => LaunchInv(s, session, lag);
    case Begin(pass) => BeginInv(s, pass, life, lag);
    case Scan(pass, dead, updates) => ScanInv(s, pass, dead, updates, lag);
    case TryClaim(pass) => ClaimInv(s, pass, life, lag);
    case Check(pass) => CheckInv(s, pass, lag);
    case Write(pass, elapsed, written) => WriteInv(s, pass, elapsed, written, lag);
    case Mark(pass) => MarkInv(s, pass, lag);
    case Remove(pass, written) => RemoveInv(s, pass, written, lag);
    case Restart(dead) => RestartInv(s, dead, lag);
    case _ => OtherInv(s, step, lag);
  }

  // ----------------------------------------------------------------------- theorems

  lemma {:induction false} RunInv<D>(init: State<D>, steps: seq<Step<D>>, life: nat, lag: nat)
    requires IsRun(init, steps, life, lag, true) && life + lag <= DAY
    ensures Inv(After(init, steps), lag)
    ensures Timely(After(init, steps), life, lag)
  {
    if steps != [] {
      var front := steps[..|steps| - 1];
      RunInv(init, front, life, lag);
      StepInv(After(init, front), steps[|steps| - 1], life, lag);
    }
  }

  /** Over any interleaving of passes, launches, saves, crashes and restarts, each
      session is finalized at most once. */
  lemma FinalizedAtMostOnce<D>(init: State<D>, steps: seq<Step<D>>, life: nat, lag: nat)
    requires IsRun(init, steps, life, lag, true) && life + lag <= DAY
    ensures AtMostOnce(After(init, steps))
  {
    RunInv(init, steps, life, lag);
  }

  // ---------------------------------------------------------------- playtime credited

  /** The playtime of a game's finalizes whose write succeeded. */
  function Credit(attempts: seq<Attempt>, id: string): nat {
    if attempts == [] then 0
    else
      var a := attempts[|attempts| - 1];
      Credit(attempts[..|attempts| - 1], id) + if a.written && a.key.gameId == id then a.elapsed else 0
  }

  ghost predicate Follows<D>(s: State<D>, library: seq<L.Item<D>>, id: string) {
    s.library == L.ApplyAll(library, s.changes) && L.Added(s.changes, id) == Credit(s.attempts, id)
  }

  lemma CreditSnoc(attempts: seq<Attempt>, a: Attempt, id: string)
    ensures Credit(attempts + [a], id) ==
      Credit(attempts, id) + if a.written && a.key.gameId == id then a.elapsed else 0
  {
    assert (attempts + [a])[..|attempts|] == attempts;
  }

  lemma WriteFollows<D>(s: State<D>, pass: nat, elapsed: nat, written: bool, library: seq<L.Item<D>>, id: string)
    requires Follows(s, library, id)
    ensures Follows(Next(s, Write(pass, elapsed, written)), library, id)
  {
    if pass in s.passes && s.passes[pass].Writing? {
      var key, n := s.passes[pass].key, Next(s, Write(pass, elapsed, written));
      CreditSnoc(s.attempts, Attempt(key, elapsed, written), id);
      assert n.attempts == s.attempts + [Attempt(key, elapsed, written)];
      if written {
        var change := L.AddPlaytime(key.gameId, elapsed);
        assert n.changes == s.changes + [change] && n.library == L.Apply(s.library, change);
      }
    }
  }

  lemma OthersLeaveTheLibrary<D>(s: State<D>, step: Step<D>)
    requires !step.Change? && !step.Write?
    ensures var n := Next(s, step);
      n.library == s.library && n.changes == s.changes && n.attempts == s.attempts
  {
  }

  lemma {:induction false} LibraryFollows<D>(init: State<D>, steps: seq<Step<D>>, id: string)
    requires Initial(init)
    ensures Follows(After(init, steps), init.library, id)
  {
    if steps != [] {
      var s, step := After(init, steps[..|steps| - 1]), steps[|steps| - 1];
      LibraryFollows(init, steps[..|steps| - 1], id);
      if step.Change? {
      } else if step.Write? {
        WriteFollows(s, step.pass, step.elapsed, step.written, init.library, id);
      } else {
        OthersLeaveTheLibrary(s, step);
      }
    }
  }

  /** A game that is in the library and in every save, once, ends up with the
      playtime it started with plus that of its finalizes whose write succeeded,
      over any steps whatever. */
  lemma PlaytimeOfSessions<D>(init: State<D>, steps: seq<Step<D>>, id: string)
    requires Initial(init)
    requires L.Once(init.library, id) && L.Stays(After(init, steps).changes, id)
    ensures var s := After(init, steps);
      && id in L.Records(init.library) && id in L.Records(s.library)
      && L.Records(s.library)[id].playtime == L.Records(init.library)[id].playtime + Credit(s.attempts, id)
  {
    LibraryFollows(init, steps, id);
    L.PlaytimeConserved(init.library, After(init, steps).changes, id);
  }

  // -------------------------------------------------------------- the bound is exact

  /** A step that may be taken in `s`, within the bounds, to `n`. */
  ghost predicate Moves<D>(r: State<D> -> bool, s: State<D>, step: Step<D>, n: State<D>,
                           life: nat, lag: nat, steady: bool) {
    r(s) && Allowed(s, step, steady) && Next(s, step) == n && Timely(n, life, lag)
  }

  /** A set of states that such steps do not leave. */
  ghost predicate Closed<D(!new)>(r: State<D> -> bool, life: nat, lag: nat, steady: bool) {
    forall s, step, n :: Moves(r, s, step, n, life, lag, steady) ==> r(n)
  }

  /** The states that runs lead to. */
  ghost function Reached<D(!new)>(init: State<D>, life: nat, lag: nat, steady: bool): State<D> -> bool {
    s => exists steps: seq<Step<D>> :: IsRun(init, steps, life, lag, steady) && After(init, steps) == s
  }

  lemma ReachedClosed<D(!new)>(init: State<D>, life: nat, lag: nat, steady: bool)
    requires Initial(init)
    ensures Closed(Reached(init, life, lag, steady), life, lag, steady) && Reached(init, life, lag, steady)(init)
  {
    var r := Reached(init, life, lag, steady);
    assert IsRun(init, [], life, lag, steady) && After(init, []) == init;
    forall s, step, n | Moves(r, s, step, n, life, lag, steady)
      ensures r(n)
    {
      var steps :| IsRun(init, steps, life, lag, steady) && After(init, steps) == s;
      var more := steps + [step];
      assert more[..|more| - 1] == steps && more[|more| - 1] == step;
      assert After(init, more) == n;
      assert IsRun(init, more, life, lag, steady);
    }
  }

  lemma RunTo<D(!new)>(init: State<D>, s: State<D>, life: nat, lag: nat, steady: bool) returns (steps: seq<Step<D>>)
    requires Reached(init, life, lag, steady)(s)
    ensures IsRun(init, steps, life, lag, steady) && After(init, steps) == s
  {
    steps :| IsRun(init, steps, life, lag, steady) && After(init, steps) == s;
  }

  const KEY := Key("game", 0)
  const SESSION := Session(KEY, None, true)

  ghost function Start<D>(library: seq<L.Item<D>>): State<D> {
    State(0, [], map[], map[], true, library, {}, {}, {}, [], [])
  }

  lemma OneSession()
    ensures KeySeq([SESSION], {KEY}) == [KEY] && UpdatedAll([SESSION], map[]) == [SESSION]
    ensures Keys([SESSION]) == {KEY} && Without([SESSION], {KEY}) == []
  {
    assert [SESSION][..0] == [];
    assert KeySeq([SESSION][..0], {KEY}) == [];
  }

  /** Pass `p` takes its snapshot of the one session and finds it ended. */
  lemma FindsEnded<D(!new)>(r: State<D> -> bool, s: State<D>, p: nat, life: nat, lag: nat, steady: bool)
    requires Closed(r, life, lag, steady) && r(s) && Timely(s, life, lag)
    requires s.registry == [SESSION] && s.recovered && p !in s.passes
    ensures r(s.(passes := s.passes[p := Finishing(s.now, [KEY])], finished := s.finished + {KEY}))
  {
    OneSession();
    var scanning := s.(passes := s.passes[p := Scanning(s.now, [SESSION])]);
    assert Moves(r, s, Begin(p), scanning, life, lag, steady);
    var found := s.(passes := s.passes[p := Finishing(s.now, [KEY])], finished := s.finished + {KEY});
    assert scanning.passes[p := Finishing(s.now, [KEY])] == found.passes;
    assert Moves(r, scanning, Scan(p, {KEY}, map[]), found, life, lag, steady);
  }

  /** The state once pass `p` has won the claim and done the finalize. */
  ghost function Finalized<D>(s: State<D>, p: nat): State<D>
    requires p in s.passes
  {
    s.(attempts := s.attempts + [Attempt(KEY, 60, false)], claims := map[KEY := Claim(false, s.now)],
       passes := s.passes[p := Marking(s.passes[p].begun, KEY, [])])
  }

  lemma WinsAndWrites<D(!new)>(r: State<D> -> bool, s: State<D>, p: nat, life: nat, lag: nat, steady: bool)
    requires Closed(r, life, lag, steady) && r(s) && Timely(s, life, lag)
    requires p in s.passes && s.passes[p].Finishing? && s.passes[p].queue == [KEY]
    requires WinsClaim(s.claims, KEY, s.now) && Prune(s.claims, s.now) == map[]
    ensures r(Finalized(s, p))
  {
    var begun := s.passes[p].begun;
    var won := s.(claims := map[KEY := Claim(false, s.now)], passes := s.passes[p := Writing(begun, KEY, [])]);
    assert Next(s, TryClaim(p)) == won by { assert [KEY][1..] == []; }
    assert Moves(r, s, TryClaim(p), won, life, lag, steady);
    assert won.passes[p := Marking(begun, KEY, [])] == s.passes[p := Marking(begun, KEY, [])];
    assert Moves(r, won, Write(p, 60, false), Finalized(s, p), life, lag, steady);
  }

  /** A finalized session still registered. */
  ghost function Leftover<D>(library: seq<L.Item<D>>): State<D> {
    State(0, [SESSION], map[KEY := Claim(true, 0)], map[], true, library,
          {KEY}, {KEY}, {}, [Attempt(KEY, 60, false)], [])
  }

  /** The first pass finalizes the session but fails to remove it. */
  lemma FirstFinalize<D(!new)>(r: State<D> -> bool, library: seq<L.Item<D>>, life: nat, lag: nat, steady: bool)
    requires Closed(r, life, lag, steady) && r(Start(library))
    ensures r(Leftover(library))
  {
    var init := Start(library);
    OneSession();
    var launched := init.(registry := [SESSION], launched := {KEY});
    assert Moves(r, init, Launch(SESSION), launched, life, lag, steady);
    FindsEnded(r, launched, 0, life, lag, steady);
    var found := launched.(passes := map[0 := Finishing(0, [KEY])], finished := {KEY});
    assert launched.passes[0 := Finishing(0, [KEY])] == found.passes;
    WinsAndWrites(r, found, 0, life, lag, steady);
    assert found.passes[0 := Marking(0, KEY, [])] == map[0 := Marking(0, KEY, [])];
    assert Finalized(found, 0) == Leftover(library).(claims := map[KEY := Claim(false, 0)],
                                                     passes := map[0 := Marking(0, KEY, [])]);
    MarksAndLeaves(r, library, life, lag, steady);
  }

  lemma MarksAndLeaves<D(!new)>(r: State<D> -> bool, library: seq<L.Item<D>>, life: nat, lag: nat, steady: bool)
    requires Closed(r, life, lag, steady)
    requires r(Leftover(library).(claims := map[KEY := Claim(false, 0)], passes := map[0 := Marking(0, KEY, [])]))
    ensures r(Leftover(library))
  {
    var left := Leftover(library);
    var written := left.(claims := map[KEY := Claim(false, 0)], passes := map[0 := Marking(0, KEY, [])]);
    var marked := left.(passes := map[0 := Removing(0, KEY, [])]);
    assert Next(written, Mark(0)) == marked;
    assert Moves(r, written, Mark(0), marked, life, lag, steady);
    var kept := left.(passes := map[0 := Finishing(0, [])]);
    assert Moves(r, marked, Remove(0, false), kept, life, lag, steady);
    assert kept.passes - {0} == map[];
    assert Moves(r, kept, End(0), left, life, lag, steady);
  }

  lemma Waits<D(!new)>(r: State<D> -> bool, s: State<D>, seconds: nat, life: nat, lag: nat, steady: bool)
    requires Closed(r, life, lag, steady) && r(s) && Timely(s.(now := s.now + seconds), life, lag)
    ensures r(s.(now := s.now + seconds))
  {
    assert Moves(r, s, Tick(seconds), s.(now := s.now + seconds), life, lag, steady);
  }

  /** Pass 2 finds the claim done and removes the session. */
  lemma RemovesDone<D(!new)>(r: State<D> -> bool, s: State<D>, life: nat, lag: nat, steady: bool)
    requires Closed(r, life, lag, steady) && r(s) && Timely(s, life, lag)
    requires 2 in s.passes && s.passes[2].Finishing? && s.passes[2].queue == [KEY]
    requires s.claims == map[KEY := Claim(true, 0)] && s.now <= DAY && s.registry == [SESSION]
    ensures r(s.(registry := [], passes := s.passes - {2}))
  {
    FindsDone(r, s, life, lag, steady);
    var begun := s.passes[2].begun;
    OneSession();
    var removing := s.(passes := s.passes[2 := Removing(begun, KEY, [])]);
    var removed := s.(registry := [], passes := s.passes[2 := Finishing(begun, [])]);
    assert removing.passes[2 := Finishing(begun, [])] == removed.passes;
    assert Moves(r, removing, Remove(2, true), removed, life, lag, steady);
    assert removed.passes - {2} == s.passes - {2};
    assert Moves(r, removed, End(2), s.(registry := [], passes := s.passes - {2}), life, lag, steady);
  }

  lemma FindsDone<D(!new)>(r: State<D> -> bool, s: State<D>, life: nat, lag: nat, steady: bool)
    requires Closed(r, life, lag, steady) && r(s) && Timely(s, life, lag)
    requires 2 in s.passes && s.passes[2].Finishing? && s.passes[2].queue == [KEY]
    requires s.claims == map[KEY := Claim(true, 0)] && s.now <= DAY
    ensures r(s.(passes := s.passes[2 := Removing(s.passes[2].begun, KEY, [])]))
  {
    var begun := s.passes[2].begun;
    var checking := s.(passes := s.passes[2 := Checking(begun, KEY, [])]);
    assert Next(s, TryClaim(2)) == checking by { assert [KEY][1..] == []; }
    assert Moves(r, s, TryClaim(2), checking, life, lag, steady);
    var removing := s.(passes := s.passes[2 := Removing(begun, KEY, [])]);
    assert checking.passes[2 := Removing(begun, KEY, [])] == removing.passes;
    assert Moves(r, checking, Check(2), removing, life, lag, steady);
  }

  // The next pass finds the claim done.
  lemma FoundDone<D(!new)>(r: State<D> -> bool, library: seq<L.Item<D>>, life: nat, lag: nat, steady: bool)
    requires Closed(r, life, lag, steady) && r(Leftover(library))
    ensures r(Leftover(library).(registry := []))
  {
    var left := Leftover(library);
    FindsEnded(r, left, 2, life, lag, steady);
    var found := left.(passes := map[2 := Finishing(0, [KEY])]);
    assert left.passes[2 := Finishing(0, [KEY])] == found.passes && left.finished + {KEY} == found.finished;
    RemovesDone(r, found, life, lag, steady);
    assert found.passes - {2} == map[];
  }

  /** A finalize whose playtime write fails is not tried again: the session leaves
      the registry and the library is as it was, where the write would have
      credited a game that is in it once. */
  lemma FailedWriteIsNotRetried<D(!new)>(library: seq<L.Item<D>>, life: nat, lag: nat, steady: bool)
    returns (steps: seq<Step<D>>)
    requires L.Once(library, KEY.gameId)
    ensures IsRun(Start(library), steps, life, lag, steady)
    ensures var s := After(Start(library), steps);
      && s.registry == [] && s.passes == map[] && s.attempts == [Attempt(KEY, 60, false)] && s.library == library
    ensures var credited := L.Apply(library, L.AddPlaytime(KEY.gameId, 60));
      && KEY.gameId in L.Records(library) && KEY.gameId in L.Records(credited)
      && L.Records(credited)[KEY.gameId].playtime == L.Records(library)[KEY.gameId].playtime + 60
  {
    var init := Start(library);
    ReachedClosed(init, life, lag, steady);
    FirstFinalize(Reached(init, life, lag, steady), library, life, lag, steady);
    FoundDone(Reached(init, life, lag, steady), library, life, lag, steady);
    steps := RunTo(init, Leftover(library).(registry := []), life, lag, steady);
    var change := L.AddPlaytime(KEY.gameId, 60);
    L.ApplyOne(library, change, KEY.gameId);
    assert [change][..0] == [];
  }

  // A session finalized once is found and finalized again, once its claim is forgotten.
  lemma FinalizesAgain<D(!new)>(r: State<D> -> bool, s: State<D>, life: nat, lag: nat, steady: bool)
    returns (t: State<D>)
    requires Closed(r, life, lag, steady) && r(s) && Timely(s, life, lag)
    requires 1 in s.passes && s.passes[1].Finishing? && s.passes[1].queue == [KEY]
    requires s.attempts == [Attempt(KEY, 60, false)] && Prune(s.claims, s.now) == map[]
    ensures r(t) && !AtMostOnce(t)
  {
    WinsAndWrites(r, s, 1, life, lag, steady);
    t := Finalized(s, 1);
    assert t.attempts[0].key == t.attempts[1].key;
  }

  lemma KeptFinalized<D(!new)>(r: State<D> -> bool, library: seq<L.Item<D>>, life: nat, lag: nat)
    returns (t: State<D>)
    requires Closed(r, life, lag, false) && r(Start(library))
    ensures r(t) && !AtMostOnce(t)
  {
    var left := Leftover(library);
    FirstFinalize(r, library, life, lag, false);
    var crashed, kept := left.(claims := map[], recovered := false), left.(claims := map[]);
    assert Moves(r, left, Crash, crashed, life, lag, false);
    assert Without([SESSION], {}) == [SESSION] by {
      assert [SESSION][..0] == [];
      assert Without([SESSION][..0], {}) == [];
    }
    assert Moves(r, crashed, Restart({}), kept, life, lag, false);
    FindsEnded(r, kept, 1, life, lag, false);
    var found := kept.(passes := kept.passes[1 := Finishing(0, [KEY])], finished := kept.finished + {KEY});
    t := FinalizesAgain(r, found, life, lag, false);
  }

  /** A restart that keeps a finalized session, its liveness unknown, lets the next
      pass finalize it again. */
  lemma UnsteadyRestart<D(!new)>(library: seq<L.Item<D>>, life: nat, lag: nat) returns (steps: seq<Step<D>>)
    ensures IsRun(Start(library), steps, life, lag, false) && !AtMostOnce(After(Start(library), steps))
  {
    var init := Start(library);
    ReachedClosed(init, life, lag, false);
    var t := KeptFinalized(Reached(init, life, lag, false), library, life, lag);
    steps := RunTo(init, t, life, lag, false);
  }

  lemma LeftTooLong<D(!new)>(r: State<D> -> bool, library: seq<L.Item<D>>, life: nat, lag: nat, steady: bool)
    returns (t: State<D>)
    requires Closed(r, life, lag, steady) && r(Start(library)) && lag > DAY
    ensures r(t) && !AtMostOnce(t)
  {
    FirstFinalize(r, library, life, lag, steady);
    Waits(r, Leftover(library), DAY + 1, life, lag, steady);
    var late := Leftover(library).(now := DAY + 1);
    FindsEnded(r, late, 1, life, lag, steady);
    var found := late.(passes := late.passes[1 := Finishing(late.now, [KEY])], finished := late.finished + {KEY});
    t := FinalizesAgain(r, found, life, lag, steady);
  }

  /** The removal lags until the claim is forgotten. */
  lemma SlowRemoval<D(!new)>(library: seq<L.Item<D>>, life: nat, lag: nat, steady: bool) returns (steps: seq<Step<D>>)
    requires lag > DAY
    ensures IsRun(Start(library), steps, life, lag, steady) && !AtMostOnce(After(Start(library), steps))
  {
    var init := Start(library);
    ReachedClosed(init, life, lag, steady);
    var t := LeftTooLong(Reached(init, life, lag, steady), library, life, lag, steady);
    steps := RunTo(init, t, life, lag, steady);
  }

  /** Pass 1 holds a snapshot with the session while pass 2 removes it. */
  ghost function Held<D>(library: seq<L.Item<D>>, lag: nat): State<D> {
    Leftover(library).(now := lag, registry := [], passes := map[1 := Finishing(lag, [KEY])])
  }

  lemma HoldsASnapshot<D(!new)>(r: State<D> -> bool, library: seq<L.Item<D>>, life: nat, lag: nat, steady: bool)
    requires Closed(r, life, lag, steady) && r(Start(library)) && lag <= DAY
    ensures r(Held(library, lag))
  {
    var left := Leftover(library).(now := lag);
    FirstFinalize(r, library, life, lag, steady);
    Waits(r, Leftover(library), lag, life, lag, steady);
    FindsEnded(r, left, 1, life, lag, steady);
    var first := left.(passes := map[1 := Finishing(lag, [KEY])]);
    assert left.passes[1 := Finishing(lag, [KEY])] == first.passes && left.finished + {KEY} == first.finished;
    FindsEnded(r, first, 2, life, lag, steady);
    var both := first.(passes := first.passes[2 := Finishing(lag, [KEY])]);
    assert first.finished + {KEY} == both.finished;
    RemovesDone(r, both, life, lag, steady);
    assert both.passes - {2} == first.passes;
  }

  lemma HeldTooLong<D(!new)>(r: State<D> -> bool, library: seq<L.Item<D>>, life: nat, lag: nat, steady: bool)
    returns (t: State<D>)
    requires Closed(r, life, lag, steady) && r(Start(library)) && life + lag > DAY && lag <= DAY
    ensures r(t) && !AtMostOnce(t)
  {
    HoldsASnapshot(r, library, life, lag, steady);
    Waits(r, Held(library, lag), DAY + 1 - lag, life, lag, steady);
    t := FinalizesAgain(r, Held(library, lag).(now := DAY + 1), life, lag, steady);
  }

  /** The pass that held the snapshot finalizes the session again. */
  lemma SlowPass<D(!new)>(library: seq<L.Item<D>>, life: nat, lag: nat, steady: bool) returns (steps: seq<Step<D>>)
    requires life + lag > DAY && lag <= DAY
    ensures IsRun(Start(library), steps, life, lag, steady) && !AtMostOnce(After(Start(library), steps))
  {
    var init := Start(library);
    ReachedClosed(init, life, lag, steady);
    var t := HeldTooLong(Reached(init, life, lag, steady), library, life, lag, steady);
    steps := RunTo(init, t, life, lag, steady);
  }

  /** The promise holds of every run exactly when a pass and the removal together
      take no longer than claims are kept, and a restart judges dead what a pass
      found dead. A pass shorter than a day is not enough. */
  lemma AtMostOnceExactly<D(!new)>(life: nat, lag: nat, steady: bool)
    ensures (forall init: State<D>, steps: seq<Step<D>> | IsRun(init, steps, life, lag, steady) ::
              AtMostOnce(After(init, steps)))
       <==> life + lag <= 86400 && steady
  {
    if life + lag > DAY {
      var steps: seq<Step<D>>;
      if lag > DAY { steps := SlowRemoval([], life, lag, steady); } else { steps := SlowPass([], life, lag, steady); }
    } else if !steady {
      var steps: seq<Step<D>> := UnsteadyRestart([], life, lag);
    } else {
      forall init: State<D>, steps: seq<Step<D>> | IsRun(init, steps, life, lag, true)
        ensures AtMostOnce(After(init, steps))
      {
        FinalizedAtMostOnce(init, steps, life, lag);
      }
    }
  }
}
