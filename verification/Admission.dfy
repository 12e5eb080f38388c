/** Games and dependency jobs keep out of each other's way: the daemon's job table, its count of launches and its mirror
    of the running games as a step system, and the states from which no job gets in beside a game. */
module Admission {

  const MAX_DEP_JOBS := 4

  /** A call to launch a game or to run a program, from taking its guard to dropping it. */
  datatype Phase = Starting | Registered(game: nat) | Announcing(game: nat, pass: nat)

  /** How far a job's admission has looked: nowhere, at the programs, and at the mirror too. The launch count comes
      last, with the job table still locked. */
  datatype Look = Idle | SawPrograms | SawMirror

  /** `registered` are the games in the registry, `live` those of them that are not over. `passes` are synchronize
      passes, by sequence number, that read the registry and are yet to publish; `gated` those that went through the
      sequence gate but have not stored what they publish. */
  datatype State = State(
    jobs: set<string>,
    flights: map<nat, Phase>,
    registered: set<nat>,
    live: set<nat>,
    programs: set<nat>,
    syncSeq: nat,
    publishedSeq: nat,
    passes: map<nat, set<nat>>,
    gated: map<nat, set<nat>>,
    mirror: bool,
    look: Look)

  datatype Event =
    | Begin(flight: nat)
    | Register(flight: nat, game: nat)
    | Read(active: set<nat>, publishes: bool)
    | Announce(flight: nat, active: set<nat>)
    | Publish(pass: nat)
    | End(flight: nat)
    | Die(game: nat)
    | Unregister(game: nat)
    | ProgramStarts(flight: nat, program: nat)
    | ProgramEnds(program: nat)
    | Admit(job: string)
    | Finish(job: string)
    // What the code also does, in smaller steps or on errors.
    | Abandon(flight: nat)
    | Clear
    | Gate(pass: nat)
    | Store(pass: nat)
    | LookAtPrograms
    | LookAtMirror
    | AdmitLooked(job: string)
    | Refuse

  /** The steps at which admission is one look, a publish is one step, and every launch publishes its game. */
  predicate Whole(e: Event) {
    && !e.Abandon? && !e.Clear? && !e.Gate? && !e.Store?
    && !e.LookAtPrograms? && !e.LookAtMirror? && !e.AdmitLooked? && !e.Refuse?
  }

  // What a pass reads, whether it is to publish that or not: every game that is not over, and maybe some that are.
  predicate CanRead(s: State, active: set<nat>) {
    s.live <= active <= s.registered
  }

  predicate Enabled(s: State, e: Event) {
    match e
    case Begin(l) => l !in s.flights && s.jobs == {} && s.look.Idle?
    case Register(l, g) => l in s.flights && s.flights[l] == Starting && g !in s.registered
    case Read(active, _) => CanRead(s, active)
    case Announce(l, active) => l in s.flights && s.flights[l].Registered? && CanRead(s, active)
    case Publish(q) => q in s.passes
    case End(l) => l in s.flights && (s.flights[l].Starting? ||
      (s.flights[l].Announcing? && s.flights[l].pass !in s.passes && s.flights[l].pass !in s.gated))
    case Die(g) => g in s.live
    case Unregister(g) => g in s.registered && g !in s.live
    case ProgramStarts(l, u) => l in s.flights && s.flights[l] == Starting
    case ProgramEnds(u) => u in s.programs
    case Admit(j) => j !in s.jobs && s.look.Idle? && s.programs == {} && !s.mirror && NoneInFlight(s) && Room(s)
    case Finish(j) => j in s.jobs && s.look.Idle?
    case Abandon(l) => l in s.flights && s.flights[l].Registered?
    case Clear => true
    case Gate(q) => q in s.passes
    case Store(q) => q in s.gated
    case LookAtPrograms => s.look.Idle? && s.programs == {}
    case LookAtMirror => s.look.SawPrograms? && !s.mirror
    case AdmitLooked(j) => j !in s.jobs && s.look.SawMirror? && NoneInFlight(s) && Room(s)
    case Refuse => !s.look.Idle?
  }

  predicate NoneInFlight(s: State) {
    s.flights == map[]
  }

  predicate Room(s: State) {
    |s.jobs| < MAX_DEP_JOBS
  }

  function Apply(s: State, e: Event): State
    requires Enabled(s, e)
  {
    match e
    case Begin(l) => s.(flights := s.flights[l := Starting])
    case Register(l, g) =>
      s.(registered := s.registered + {g}, live := s.live + {g}, flights := s.flights[l := Registered(g)])
    case Read(active, publishes) =>
      s.(syncSeq := s.syncSeq + 1, passes := if publishes then s.passes[s.syncSeq + 1 := active] else s.passes)
    case Announce(l, active) => s.(syncSeq := s.syncSeq + 1, passes := s.passes[s.syncSeq + 1 := active],
                                   flights := s.flights[l := Announcing(s.flights[l].game, s.syncSeq + 1)])
    case Publish(q) =>
      if q <= s.publishedSeq then s.(passes := s.passes - {q})
      else s.(passes := s.passes - {q}, publishedSeq := q, mirror := s.passes[q] != {})
    case End(l) => s.(flights := s.flights - {l})
    case Die(g) => s.(live := s.live - {g})
    case Unregister(g) => s.(registered := s.registered - {g})
    case ProgramStarts(l, u) => s.(programs := s.programs + {u})
    case ProgramEnds(u) => s.(programs := s.programs - {u})
    case Admit(j) => s.(jobs := s.jobs + {j})
    case Finish(j) => s.(jobs := s.jobs - {j})
    case Abandon(l) => s.(flights := s.flights - {l})
    case Clear => s.(mirror := false)
    case Gate(q) =>
      if q <= s.publishedSeq then s.(passes := s.passes - {q})
      else s.(passes := s.passes - {q}, publishedSeq := q, gated := s.gated[q := s.passes[q]])
    case Store(q) => s.(gated := s.gated - {q}, mirror := s.gated[q] != {})
    case LookAtPrograms => s.(look := SawPrograms)
    case LookAtMirror => s.(look := SawMirror)
    case AdmitLooked(j) => s.(look := Idle, jobs := s.jobs + {j})
    case Refuse => s.(look := Idle)
  }

  /** After startup: games and programs an earlier daemon left may be on, nothing else runs. The games are published,
      unless reconciling them failed. */
  predicate Initial(s: State) {
    && s.jobs == {} && NoneInFlight(s) && s.live <= s.registered
    && s.syncSeq == 0 && s.publishedSeq == 0 && s.passes == map[] && s.gated == map[]
    && (s.mirror ==> s.registered != {}) && s.look.Idle?
  }

  predicate IsStep(s: State, e: Event, t: State) {
    Enabled(s, e) && t == Apply(s, e)
  }

  predicate IsPath(states: seq<State>, events: seq<Event>) {
    |states| == |events| + 1 && forall i :: 0 <= i < |events| ==> IsStep(states[i], events[i], states[i + 1])
  }

  predicate IsRun(states: seq<State>, events: seq<Event>) {
    IsPath(states, events) && Initial(states[0])
  }

  /** A dependency job beside a game that is not over, or beside a program. */
  predicate Bad(s: State) {
    s.jobs != {} && (s.live != {} || s.programs != {})
  }

  // ------------------------------------------------------------------ what every state keeps

  predicate Locked(s: State) {
    (s.jobs != {} ==> NoneInFlight(s)) && |s.jobs| <= MAX_DEP_JOBS
  }

  ghost predicate Sound(s: State) {
    && Locked(s)
    && s.live <= s.registered
    && s.publishedSeq <= s.syncSeq
    && (forall q :: q in s.passes ==> q <= s.syncSeq)
    && (forall q :: q in s.gated ==> q <= s.publishedSeq)
    && (forall q :: q in s.passes ==> q !in s.gated)
  }

  lemma JobsOf(s: State, e: Event, t: State)
    requires IsStep(s, e, t)
    ensures if e.Admit? || e.AdmitLooked?
      then t.jobs == s.jobs + {e.job} && |s.jobs| < MAX_DEP_JOBS && t.flights == s.flights == map[]
      else if e.Finish? then t.jobs == s.jobs - {e.job} && e.job in s.jobs
      else t.jobs == s.jobs
  {
  }

  lemma FlightsStartAlone(s: State, e: Event, t: State)
    requires IsStep(s, e, t) && NoneInFlight(s)
    ensures NoneInFlight(t) || (s.jobs == {} && t.jobs == {})
  {
  }

  lemma StepLocked(s: State, e: Event, t: State)
    requires Locked(s) && IsStep(s, e, t)
    ensures Locked(t)
  {
    JobsOf(s, e, t);
    if NoneInFlight(s) {
      FlightsStartAlone(s, e, t);
    }
  }

  lemma StepSound(s: State, e: Event, t: State)
    requires Sound(s) && IsStep(s, e, t)
    ensures Sound(t)
  {
    StepLocked(s, e, t);
  }

  lemma {:induction false} PathSound(states: seq<State>, events: seq<Event>, n: nat)
    requires IsPath(states, events) && Sound(states[0]) && n < |states|
    ensures Sound(states[n])
  {
    if n > 0 {
      PathSound(states, events, n - 1);
      StepSound(states[n - 1], events[n - 1], states[n]);
    }
  }

  /** In every reachable state, at the finest steps and with every error, a dependency job excludes launches in flight,
      and there are at most four jobs. */
  lemma JobsExcludeLaunches(states: seq<State>, events: seq<Event>, n: nat)
    requires IsRun(states, events) && n < |states|
    ensures states[n].jobs != {} ==> states[n].flights == map[]
    ensures |states[n].jobs| <= 4
  {
    PathSound(states, events, n);
  }

  // ----------------------------------------------------------------------- safe states

  // A pass that will count when it is published.
  predicate Fresh(s: State, q: nat) {
    q in s.passes && s.publishedSeq < q
  }

  // A launch that has yet to read its game back.
  predicate WillRead(s: State, l: nat) {
    l in s.flights && s.flights[l].Registered?
  }

  // A launch that has yet to publish a pass that will count.
  predicate Owes(s: State, l: nat) {
    l in s.flights && s.flights[l].Announcing? && Fresh(s, s.flights[l].pass)
  }

  // A launch whose pass is through the gate and has yet to be stored.
  predicate WillStore(s: State, l: nat) {
    l in s.flights && s.flights[l].Announcing? && s.flights[l].pass in s.gated
  }

  ghost predicate AboveOwed(s: State, q: nat) {
    forall l :: Owes(s, l) ==> s.flights[l].pass <= q
  }

  /** An empty pass that counts even after every launch has published what it owes. */
  ghost predicate Overrides(s: State, q: nat) {
    Fresh(s, q) && s.passes[q] == {} && AboveOwed(s, q)
  }

  ghost predicate NoneOverrides(s: State) {
    forall q :: !Overrides(s, q)
  }

  /** A launch that will not return before it has read the games back, or before it has stored that none runs. */
  ghost predicate Barred(s: State) {
    exists l :: WillRead(s, l) || (WillStore(s, l) && s.gated[s.flights[l].pass] == {})
  }

  /** The mirror will go up before every launch in flight has returned. */
  ghost predicate Coming(s: State) {
    exists l :: Owes(s, l) || WillStore(s, l)
  }

  /** A game that is on keeps jobs out: a launch bars them, or the mirror is up or will go up, and stays. */
  ghost predicate Held(s: State) {
    Barred(s) || (NoneOverrides(s) && (s.mirror || Coming(s)))
  }

  ghost predicate Safe(s: State) {
    !Bad(s) && (s.live == {} || Held(s))
  }

  /** Steps that look once, publish at once and return only after publishing; and those that complete what was begun
      in smaller ones without saying that nothing runs. */
  predicate Quiet(s: State, e: Event) {
    Whole(e) || e.Refuse? || (e.Store? && e.pass in s.gated && s.gated[e.pass] != {})
  }

  predicate IsQuiet(states: seq<State>, events: seq<Event>) {
    IsPath(states, events) && forall i :: 0 <= i < |events| ==> Quiet(states[i], events[i])
  }

  // ---------------------------------------------------------------- quiet steps keep it

  lemma ReadHeld(s: State, e: Event, t: State)
    requires Sound(s) && Held(s) && IsStep(s, e, t) && s.live != {} && (e.Read? || e.Announce?)
    ensures Held(t)
  {
    var q: nat := s.syncSeq + 1;
    if e.Announce? {
      assert t.passes[q] != {};
      assert Owes(t, e.flight);
      forall r: nat
        ensures !Overrides(t, r)
      {
        assert Overrides(t, r) ==> q <= r && Fresh(t, r);
      }
    } else {
      forall l
        ensures WillRead(s, l) <==> WillRead(t, l)
        ensures WillStore(s, l) <==> WillStore(t, l)
        ensures Owes(s, l) ==> Owes(t, l)
      {
      }
      forall r
        ensures Overrides(t, r) ==> Overrides(s, r)
      {
      }
    }
  }

  lemma PublishHeld(s: State, q: nat, t: State)
    requires Sound(s) && Held(s) && IsStep(s, Publish(q), t)
    ensures Held(t)
  {
    if Barred(s) {
      var l :| WillRead(s, l) || (WillStore(s, l) && s.gated[s.flights[l].pass] == {});
      assert WillRead(t, l) || (WillStore(t, l) && t.gated[t.flights[l].pass] == {});
    } else if q <= s.publishedSeq {
      SameOwed(s, t);
    } else {
      PublishFresh(s, q, t);
    }
  }

  // Two states with the same launches and the same passes that count.
  lemma SameOwed(s: State, t: State)
    requires s.flights == t.flights && s.gated == t.gated && s.mirror == t.mirror
    requires forall q :: Fresh(s, q) <==> Fresh(t, q)
    requires forall q :: Fresh(s, q) && Fresh(t, q) ==> s.passes[q] == t.passes[q]
    requires Held(s)
    ensures Held(t)
  {
    forall l
      ensures WillRead(s, l) <==> WillRead(t, l)
      ensures WillStore(s, l) <==> WillStore(t, l)
      ensures Owes(s, l) <==> Owes(t, l)
    {
    }
    forall r
      ensures Overrides(t, r) ==> Overrides(s, r)
    {
    }
  }

  lemma PublishFresh(s: State, q: nat, t: State)
    requires Sound(s) && IsStep(s, Publish(q), t) && s.publishedSeq < q
    requires NoneOverrides(s) && (s.mirror || Coming(s))
    ensures Held(t)
  {
    forall r
      ensures !Overrides(t, r)
    {
      if Overrides(t, r) {
        forall l | Owes(s, l)
          ensures s.flights[l].pass <= r
        {
          assert s.flights[l].pass <= q || Owes(t, l);
        }
        assert Overrides(s, r);
      }
    }
    if l :| Owes(t, l) {
    } else if s.passes[q] == {} {
      forall l | Owes(s, l)
        ensures s.flights[l].pass <= q
      {
        assert !Owes(t, l);
      }
      assert Overrides(s, q);
    }
  }

  // Quiet steps that leave passes, gate and mirror alone.
  lemma OtherHeld(s: State, e: Event, t: State)
    requires Held(s) && IsStep(s, e, t) && Quiet(s, e)
    requires !e.Read? && !e.Announce? && !e.Publish? && !e.Store? && !e.Register?
    ensures Held(t)
  {
    forall l
      ensures WillRead(s, l) <==> WillRead(t, l)
      ensures WillStore(s, l) <==> WillStore(t, l)
      ensures Owes(s, l) <==> Owes(t, l)
    {
    }
    forall r
      ensures Overrides(t, r) ==> Overrides(s, r)
    {
    }
  }

  lemma StoreHeld(s: State, q: nat, t: State)
    requires Held(s) && IsStep(s, Store(q), t) && s.gated[q] != {}
    ensures Held(t)
  {
    forall l
      ensures Owes(s, l) <==> Owes(t, l)
      ensures WillRead(s, l) <==> WillRead(t, l)
      ensures WillStore(s, l) && s.gated[s.flights[l].pass] == {} ==> WillStore(t, l)
    {
    }
    forall r
      ensures Overrides(t, r) ==> Overrides(s, r)
    {
    }
  }

  // With a game on and no launch in flight, a state that holds jobs out has its mirror up.
  lemma HeldAlone(s: State)
    requires Held(s) && NoneInFlight(s)
    ensures s.mirror
  {
  }

  lemma StepSafe(s: State, e: Event, t: State)
    requires Sound(s) && Safe(s) && Quiet(s, e) && IsStep(s, e, t)
    ensures Safe(t)
  {
    if e.Admit? {
      if s.live != {} { HeldAlone(s); }
    } else if e.Register? {
      assert WillRead(t, e.flight);
    } else if t.live != {} {
      if e.Read? || e.Announce? {
        ReadHeld(s, e, t);
      } else if e.Publish? {
        PublishHeld(s, e.pass, t);
      } else if e.Store? {
        StoreHeld(s, e.pass, t);
      } else {
        OtherHeld(s, e, t);
      }
    }
  }

  /** Over any run at the finest steps, errors included, no game that is not over and no program is beside a dependency
      job, when the start is safe and so is the state each step that is not quiet leads to. */
  lemma {:induction false} NoGameBesideAJob(states: seq<State>, events: seq<Event>, n: nat)
    requires IsPath(states, events) && n < |states|
    requires Sound(states[0]) && Safe(states[0])
    requires forall i :: 0 <= i < |events| && !Quiet(states[i], events[i]) ==> Safe(states[i + 1])
    ensures Sound(states[n]) && Safe(states[n])
    ensures states[n].jobs != {} ==> states[n].live == {} && states[n].programs == {}
  {
    if n > 0 {
      NoGameBesideAJob(states, events, n - 1);
      StepSound(states[n - 1], events[n - 1], states[n]);
      if Quiet(states[n - 1], events[n - 1]) {
        StepSafe(states[n - 1], events[n - 1], states[n]);
      }
    }
  }
}
