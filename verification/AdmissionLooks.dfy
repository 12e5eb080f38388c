/** A job's admission looks three times, at the programs, at the mirror and at the launch count, with only the job table
    locked in between: what can slip through, and runs in which a job gets in beside a game. */
module AdmissionLooks {
  import opened Admission
  import opened AdmissionExact

  // ------------------------------------------------------------------ between the looks

  ghost predicate Standing(states: seq<State>, events: seq<Event>) {
    IsPath(states, events) && forall i :: 0 <= i < |states| ==> states[i].look.SawMirror?
  }

  /** Whatever launches, passes, games and errors do while the look at the mirror stands, a job admitted by it is
      beside no game and no program. */
  ghost predicate LookHolds(s: State) {
    forall states, events, job ::
      (Standing(states, events) && states[0] == s && Enabled(states[|events|], AdmitLooked(job))) ==>
      !Bad(Apply(states[|events|], AdmitLooked(job)))
  }

  predicate NothingOn(s: State) {
    s.live == {} && s.programs == {} && forall l :: l in s.flights ==> !s.flights[l].Starting?
  }

  lemma StepNothingOn(s: State, e: Event, t: State)
    requires s.look.SawMirror? && t.look.SawMirror? && NothingOn(s) && IsStep(s, e, t)
    ensures NothingOn(t)
  {
  }

  lemma {:induction false} PathNothingOn(states: seq<State>, events: seq<Event>, n: nat)
    requires Standing(states, events) && n < |states| && NothingOn(states[0])
    ensures NothingOn(states[n])
  {
    if n > 0 {
      PathNothingOn(states, events, n - 1);
      assert states[n - 1].look.SawMirror? && states[n].look.SawMirror?;
      StepNothingOn(states[n - 1], events[n - 1], states[n]);
    }
  }

  /** Steps that begin nothing in smaller parts and meet no error. */
  predicate Completes(e: Event) {
    Whole(e) || e.Store? || e.Refuse? || e.AdmitLooked?
  }

  ghost predicate Reaches(s: State, states: seq<State>, events: seq<Event>, t: State) {
    && Standing(states, events) && (forall e :: e in events ==> Completes(e))
    && states[0] == s && states[|events|] == t
  }

  lemma StandingThen(s: State, e: Event, m: State, states: seq<State>, events: seq<Event>, t: State)
    requires IsStep(s, e, m) && Completes(e) && s.look.SawMirror? && Reaches(m, states, events, t)
    ensures Reaches(s, [s] + states, [e] + events, t)
  {
    var all, done := [s] + states, [e] + events;
    forall i | 0 <= i < |done|
      ensures IsStep(all[i], done[i], all[i + 1])
    {
      if i > 0 {
        assert IsStep(states[i - 1], events[i - 1], states[i]);
      }
    }
  }

  function Readers(s: State): set<nat> {
    set l | l in s.flights && s.flights[l].Registered?
  }

  function Left(s: State): nat {
    |s.flights| + |s.passes| + |s.gated|
  }

  // The next step of a launch on its way out; what is on stays on.
  ghost predicate Leaves(s: State, e: Event) {
    && Enabled(s, e) && (Whole(e) || e.Store?)
    && Apply(s, e).(flights := s.flights, syncSeq := s.syncSeq, publishedSeq := s.publishedSeq, passes := s.passes,
                    gated := s.gated, mirror := s.mirror) == s
    && (Readers(Apply(s, e)) < Readers(s) || (Readers(Apply(s, e)) == Readers(s) && Left(Apply(s, e)) < Left(s)))
  }

  lemma ReaderLeaves(s: State, l: nat)
    requires Sound(s) && WillRead(s, l)
    ensures Leaves(s, Announce(l, s.live))
  {
    assert l in Readers(s) && l !in Readers(Apply(s, Announce(l, s.live)));
  }

  lemma StoringLeaves(s: State, q: nat)
    requires q in s.gated
    ensures Leaves(s, Store(q))
  {
    Smaller(s.gated, q);
    assert Readers(Apply(s, Store(q))) == Readers(s);
  }

  lemma EndLeaves(s: State, l: nat)
    requires Enabled(s, End(l))
    ensures Leaves(s, End(l))
  {
    Smaller(s.flights, l);
    assert Readers(Apply(s, End(l))) == Readers(s);
  }

  lemma FlightLeaves(s: State, l: nat) returns (e: Event)
    requires Sound(s) && l in s.flights
    ensures Leaves(s, e)
  {
    if s.flights[l].Registered? {
      e := Announce(l, s.live);
      ReaderLeaves(s, l);
    } else if s.flights[l].Announcing? && s.flights[l].pass in s.passes {
      e := Publish(s.flights[l].pass);
    } else if s.flights[l].Announcing? && s.flights[l].pass in s.gated {
      e := Store(s.flights[l].pass);
      StoringLeaves(s, s.flights[l].pass);
    } else {
      e := End(l);
      EndLeaves(s, l);
    }
  }

  lemma {:induction false} AllLeave(s: State) returns (states: seq<State>, events: seq<Event>, t: State)
    requires Sound(s) && s.look.SawMirror?
    ensures Reaches(s, states, events, t) && NoneInFlight(t)
    ensures t.jobs == s.jobs && t.live == s.live && t.programs == s.programs && t.look == s.look
    decreases Readers(s), Left(s)
  {
    if NoneInFlight(s) {
      states, events, t := [s], [], s;
    } else {
      var l :| l in s.flights;
      var e := FlightLeaves(s, l);
      StepSound(s, e, Apply(s, e));
      states, events, t := AllLeave(Apply(s, e));
      StandingThen(s, e, Apply(s, e), states, events, t);
      states, events := [s] + states, [e] + events;
    }
  }

  lemma NewJob(jobs: set<string>) returns (job: string)
    ensures job !in jobs
  {
    var rest := jobs;
    job := "";
    while rest != {}
      invariant forall x :: x in jobs && x !in rest ==> |x| < |job|
    {
      var x :| x in rest;
      rest := rest - {x};
      job := if |x| < |job| then job else x + "x";
    }
  }

  lemma NewGame(registered: set<nat>) returns (g: nat)
    ensures g !in registered
  {
    var rest := registered;
    g := 0;
    while rest != {}
      invariant forall x :: x in registered && x !in rest ==> x < g
    {
      var x :| x in rest;
      rest := rest - {x};
      g := if x < g then g else x + 1;
    }
  }

  lemma AdmittedBesides(s: State) returns (states: seq<State>, events: seq<Event>, t: State, job: string)
    requires Sound(s) && s.look.SawMirror? && Room(s) && (s.live != {} || s.programs != {})
    ensures Reaches(s, states, events, t) && Enabled(t, AdmitLooked(job)) && Bad(Apply(t, AdmitLooked(job)))
  {
    states, events, t := AllLeave(s);
    job := NewJob(t.jobs);
  }

  /** When something is on, or a launch is yet to register, steps that meet no error lead to its admission beside it. */
  lemma SomethingSlipsThrough(s: State) returns (states: seq<State>, events: seq<Event>, t: State, job: string)
    requires Sound(s) && s.look.SawMirror? && Room(s) && !NothingOn(s)
    ensures Reaches(s, states, events, t) && Enabled(t, AdmitLooked(job)) && Bad(Apply(t, AdmitLooked(job)))
  {
    if s.live != {} || s.programs != {} {
      states, events, t, job := AdmittedBesides(s);
    } else {
      var l :| l in s.flights && s.flights[l].Starting?;
      var g := NewGame(s.registered);
      var m := Apply(s, Register(l, g));
      StepSound(s, Register(l, g), m);
      states, events, t, job := AdmittedBesides(m);
      StandingThen(s, Register(l, g), m, states, events, t);
      states, events := [s] + states, [Register(l, g)] + events;
    }
  }

  /** After the look at the mirror, and before that at the launch count, admission is sound through every path of any
      events exactly when no game and no program is on and no launch in flight has yet to register its game. */
  lemma MirrorLookExactly(s: State)
    requires Sound(s) && s.look.SawMirror? && Room(s)
    ensures LookHolds(s) <==> NothingOn(s)
  {
    if NothingOn(s) {
      forall states, events, job | Standing(states, events) && states[0] == s &&
        Enabled(states[|events|], AdmitLooked(job))
        ensures !Bad(Apply(states[|events|], AdmitLooked(job)))
      {
        PathNothingOn(states, events, |events|);
      }
    } else {
      var states, events, t, job := SomethingSlipsThrough(s);
    }
  }

  /** A launch in flight at the look is what it takes: in a safe state with none, the look at the mirror holds. */
  lemma NoLaunchNoGap(s: State)
    requires Sound(s) && Safe(s) && Room(s) && s.programs == {}
    requires NoneInFlight(s) && Enabled(s, LookAtMirror)
    ensures LookHolds(Apply(s, LookAtMirror))
  {
    if s.live != {} { HeldAlone(s); }
    StepSound(s, LookAtMirror, Apply(s, LookAtMirror));
    MirrorLookExactly(Apply(s, LookAtMirror));
  }

  // ------------------------------------------------------------ conditions for every step

  /** The condition of each step, the look at the mirror included; admitting by an earlier look needs none. */
  ghost predicate FitsAll(s: State, e: Event)
    requires Enabled(s, e)
  {
    Fits(s, e) && (e.LookAtMirror? && Room(s) ==> NothingOn(s))
  }

  ghost predicate Looked(s: State) {
    s.look.SawMirror? && Room(s) ==> NothingOn(s)
  }

  lemma StepLooked(s: State, e: Event, t: State)
    requires Looked(s) && IsStep(s, e, t) && FitsAll(s, e)
    ensures Looked(t)
  {
    if t.look.SawMirror? && s.look.SawMirror? {
      assert t.jobs == s.jobs;
      if Room(s) { StepNothingOn(s, e, t); }
    }
  }

  lemma StepFits(s: State, e: Event, t: State)
    requires Sound(s) && Safe(s) && Looked(s) && IsStep(s, e, t) && FitsAll(s, e)
    ensures Sound(t) && Safe(t) && Looked(t)
  {
    StepSound(s, e, t);
    StepLooked(s, e, t);
    if !e.AdmitLooked? {
      FitsExactly(s, e);
      AfterEvent(s, e);
    }
  }

  /** Over any run at the finest steps, with every error, in which each step meets its condition, no game that is not
      over and no program is beside a job. */
  lemma {:induction false} RunsThatFit(states: seq<State>, events: seq<Event>, n: nat)
    requires IsRun(states, events) && n < |states| && (states[0].live == {} || states[0].mirror)
    requires forall i :: 0 <= i < |events| ==> Enabled(states[i], events[i]) && FitsAll(states[i], events[i])
    ensures Sound(states[n]) && Safe(states[n]) && Looked(states[n]) && !Bad(states[n])
  {
    if n > 0 {
      RunsThatFit(states, events, n - 1);
      assert IsStep(states[n - 1], events[n - 1], states[n]) && FitsAll(states[n - 1], events[n - 1]);
      StepFits(states[n - 1], events[n - 1], states[n]);
    }
  }

  // Steps without errors that lead from a step that does not meet its condition to a job beside a game or a program.
  lemma Breaks(s: State, e: Event) returns (states: seq<State>, events: seq<Event>)
    requires Sound(s) && Safe(s) && Looked(s) && Enabled(s, e) && !FitsAll(s, e)
    ensures IsPath(states, events) && states[0] == Apply(s, e) && Bad(states[|events|])
    ensures forall i :: 0 <= i < |events| ==> Completes(events[i])
  {
    var t := Apply(s, e);
    StepSound(s, e, t);
    if e.LookAtMirror? && Room(s) && !NothingOn(s) {
      var u: State;
      var job: string;
      states, events, u, job := SomethingSlipsThrough(t);
      AtLast(states, events, AdmitLooked(job));
      states, events := states + [Apply(u, AdmitLooked(job))], events + [AdmitLooked(job)];
    } else {
      FitsExactly(s, e);
      states, events :| IsQuiet(states, events) && states[0] == t && Bad(states[|events|]);
      assert forall i :: 0 <= i < |events| ==> Quiet(states[i], events[i]);
    }
  }

  lemma AtLast(states: seq<State>, events: seq<Event>, e: Event)
    requires IsPath(states, events) && Enabled(states[|events|], e)
    ensures IsPath(states + [Apply(states[|events|], e)], events + [e])
  {
    var all, done := states + [Apply(states[|events|], e)], events + [e];
    forall i | 0 <= i < |done|
      ensures IsStep(all[i], done[i], all[i + 1])
    {
      assert i < |events| ==> IsStep(states[i], events[i], states[i + 1]);
    }
  }

  /** And the conditions are the weakest: a run in which the last step alone does not meet its own goes on, without an
      error, to a job beside a game or a program. */
  lemma ARunThatDoesNot(states: seq<State>, events: seq<Event>) returns (more: seq<State>, done: seq<Event>)
    requires IsRun(states, events) && events != [] && (states[0].live == {} || states[0].mirror)
    requires forall i :: 0 <= i < |events| ==> Enabled(states[i], events[i])
    requires forall i :: 0 <= i < |events| ==> (FitsAll(states[i], events[i]) <==> i < |events| - 1)
    ensures IsPath(more, done) && more[0] == states[|events|] && Bad(more[|done|])
    ensures forall i :: 0 <= i < |done| ==> Completes(done[i])
  {
    var k := |events| - 1;
    var front, steps := states[..k + 1], events[..k];
    forall i | 0 <= i < |steps|
      ensures IsStep(front[i], steps[i], front[i + 1]) && FitsAll(front[i], steps[i])
    {
      assert IsStep(states[i], events[i], states[i + 1]) && FitsAll(states[i], events[i]);
    }
    RunsThatFit(front, steps, k);
    assert IsStep(states[k], events[k], states[k + 1]) && !FitsAll(states[k], events[k]);
    more, done := Breaks(states[k], events[k]);
  }

  /** So the order of the looks is the cause. With the table locked and no launch in flight, none comes, whatever else
      happens, and a mirror that is down at any later time rules every game out. */
  lemma {:induction false} TheOtherOrderHolds(states: seq<State>, events: seq<Event>, n: nat)
    requires IsQuiet(states, events) && n < |states| && Sound(states[0]) && Safe(states[0]) && NoneInFlight(states[0])
    requires forall i :: 0 <= i < |states| ==> !states[i].look.Idle?
    ensures NoneInFlight(states[n])
    ensures !states[n].mirror ==> states[n].live == {}
  {
    NoGameBesideAJob(states, events, n);
    if n > 0 {
      TheOtherOrderHolds(states, events, n - 1);
      assert IsStep(states[n - 1], events[n - 1], states[n]) && !states[n - 1].look.Idle?;
    }
    if states[n].live != {} { HeldAlone(states[n]); }
  }

  // ---------------------------------------------------------------- runs in which it fails

  lemma TwoSteps(a: State, e: Event, b: State, f: Event, c: State)
    requires IsStep(a, e, b) && IsStep(b, f, c)
    ensures IsPath([a, b, c], [e, f])
  {
  }

  lemma Join(a: seq<State>, first: seq<Event>, b: seq<State>, second: seq<Event>)
    requires IsPath(a, first) && IsPath(b, second) && a[|first|] == b[0]
    ensures IsPath(a + b[1..], first + second)
    ensures (a + b[1..])[|first + second|] == b[|second|]
  {
    var states, events := a + b[1..], first + second;
    forall i | 0 <= i < |events|
      ensures IsStep(states[i], events[i], states[i + 1])
    {
      if i >= |first| {
        assert states[i] == b[i - |first|] && states[i + 1] == b[i - |first| + 1];
        assert IsStep(b[i - |first|], second[i - |first|], b[i - |first| + 1]);
      }
    }
  }

  lemma Join5(a: seq<State>, e: seq<Event>, b: seq<State>, f: seq<Event>, c: seq<State>, g: seq<Event>,
              d: seq<State>, h: seq<Event>, x: seq<State>, y: seq<Event>)
    returns (states: seq<State>, events: seq<Event>)
    requires IsPath(a, e) && IsPath(b, f) && IsPath(c, g) && IsPath(d, h) && IsPath(x, y)
    requires a[|e|] == b[0] && b[|f|] == c[0] && c[|g|] == d[0] && d[|h|] == x[0]
    ensures IsPath(states, events) && states[0] == a[0] && states[|events|] == x[|y|] && events == e + f + g + h + y
  {
    Join(a, e, b, f);
    Join(a + b[1..], e + f, c, g);
    Join(a + b[1..] + c[1..], e + f + g, d, h);
    Join(a + b[1..] + c[1..] + d[1..], e + f + g + h, x, y);
    states, events := a + b[1..] + c[1..] + d[1..] + x[1..], e + f + g + h + y;
  }

  // A run to a state that is not safe goes on to a job beside a game.
  lemma ThenAJobGetsIn(a: seq<State>, first: seq<Event>) returns (states: seq<State>, events: seq<Event>)
    requires IsRun(a, first) && Open(a[|first|]) && a[|first|].gated == map[]
    ensures IsRun(states, events) && states[|events|].jobs != {} && states[|events|].live != {}
    ensures first <= events && forall e :: e in events[|first|..] ==> Whole(e) || e.Refuse?
  {
    PathSound(a, first, |first|);
    var more, done, t := JobGetsIn(a[|first|]);
    Join(a, first, more, done);
    QuietUngated(more, done, |done|);
    states, events := a + more[1..], first + done;
    assert events[|first|..] == done;
  }

  lemma {:induction false} QuietUngated(states: seq<State>, events: seq<Event>, n: nat)
    requires IsQuiet(states, events) && n < |states| && states[0].gated == map[]
    ensures states[n].gated == map[]
    ensures forall e :: e in events[..n] ==> Whole(e) || e.Refuse?
  {
    if n > 0 {
      QuietUngated(states, events, n - 1);
      assert IsStep(states[n - 1], events[n - 1], states[n]) && Quiet(states[n - 1], events[n - 1]);
      assert events[..n] == events[..n - 1] + [events[n - 1]];
    }
  }

  const QUIET := State({}, map[], {}, {}, {}, 0, 0, map[], map[], false, Idle)
  const BEGUN := QUIET.(flights := map[0 := Starting])
  const ENTERED := BEGUN.(flights := map[0 := Registered(7)], registered := {7}, live := {7})
  // Game 7 is in the registry, and its launch has read it back to publish it.
  const READ_BACK := ENTERED.(flights := map[0 := Announcing(7, 1)], syncSeq := 1, passes := map[1 := {7}])
  const PUBLISHED := READ_BACK.(passes := map[], publishedSeq := 1, mirror := true)
  const SHOWN := PUBLISHED.(flights := map[])

  lemma Enter()
    ensures IsPath([QUIET, BEGUN, ENTERED], [Begin(0), Register(0, 7)])
  {
    TwoSteps(QUIET, Begin(0), BEGUN, Register(0, 7), ENTERED);
  }

  lemma ReadBackAndPublish()
    ensures IsPath([ENTERED, READ_BACK, PUBLISHED], [Announce(0, {7}), Publish(1)])
  {
    TwoSteps(ENTERED, Announce(0, {7}), READ_BACK, Publish(1), PUBLISHED);
  }

  lemma ReadBack()
    ensures IsPath([ENTERED, READ_BACK], [Announce(0, {7})])
  {
  }

  lemma EndAndClear()
    ensures IsPath([PUBLISHED, SHOWN, SHOWN.(mirror := false)], [End(0), Clear])
  {
    TwoSteps(PUBLISHED, End(0), SHOWN, Clear, SHOWN.(mirror := false));
  }

  /** Clearing the mirror lets a job in beside a running game. */
  lemma ClearLetsAJobIn() returns (states: seq<State>, events: seq<Event>)
    ensures IsRun(states, events) && states[|events|].jobs != {} && states[|events|].live != {}
    ensures forall e :: e in events ==> Whole(e) || e.Clear? || e.Refuse?
  {
    Enter();
    ReadBackAndPublish();
    EndAndClear();
    var a, b := [QUIET, BEGUN, ENTERED], [ENTERED, READ_BACK, PUBLISHED];
    var c := [PUBLISHED, SHOWN, SHOWN.(mirror := false)];
    var e, f, g := [Begin(0), Register(0, 7)], [Announce(0, {7}), Publish(1)], [End(0), Clear];
    Join(a, e, b, f);
    Join(a + b[1..], e + f, c, g);
    states, events := ThenAJobGetsIn(a + b[1..] + c[1..], e + f + g);
    assert events == e + f + g + events[|e + f + g|..];
  }

  /** A launch that could not publish its game, and returned, lets a job in beside it. */
  lemma AFailedPublishLetsAJobIn() returns (states: seq<State>, events: seq<Event>)
    ensures IsRun(states, events) && states[|events|].jobs != {} && states[|events|].live != {}
    ensures forall e :: e in events ==> Whole(e) || e.Abandon? || e.Refuse?
  {
    Enter();
    var returned := ENTERED.(flights := map[]);
    assert IsPath([ENTERED, returned], [Abandon(0)]);
    Join([QUIET, BEGUN, ENTERED], [Begin(0), Register(0, 7)], [ENTERED, returned], [Abandon(0)]);
    var a, e := [QUIET, BEGUN, ENTERED] + [ENTERED, returned][1..], [Begin(0), Register(0, 7)] + [Abandon(0)];
    states, events := ThenAJobGetsIn(a, e);
    assert events == e + events[|e|..];
  }

  // A later pass has read the game too and went through the gate, and stalls before it stores; the launch's own publish
  // is dropped as older, and the launch returns.
  const LATER := READ_BACK.(syncSeq := 2, passes := map[1 := {7}, 2 := {7}])
  const GATED := LATER.(publishedSeq := 2, passes := map[1 := {7}], gated := map[2 := {7}])
  const DROPPED := GATED.(passes := map[])
  const RETURNED := DROPPED.(flights := map[])
  const BESIDE := RETURNED.(jobs := {"job"})

  lemma GateAhead()
    ensures IsPath([READ_BACK, LATER, GATED], [Read({7}, true), Gate(2)])
  {
    TwoSteps(READ_BACK, Read({7}, true), LATER, Gate(2), GATED);
  }

  lemma DropAndReturn()
    ensures IsPath([GATED, DROPPED, RETURNED], [Publish(1), End(0)])
  {
    TwoSteps(GATED, Publish(1), DROPPED, End(0), RETURNED);
  }

  /** A publish that stalls behind the sequence gate lets a job in though it was about to say that the game runs. */
  lemma AStalledPublishLetsAJobIn() returns (states: seq<State>, events: seq<Event>)
    ensures IsRun(states, events) && states[|events|].jobs != {} && states[|events|].live != {}
    ensures forall e :: e in events ==> Whole(e) || e == Gate(2)
    ensures forall q :: q in states[|events|].gated ==> states[|events|].gated[q] != {}
  {
    Enter();
    ReadBack();
    GateAhead();
    DropAndReturn();
    assert IsPath([RETURNED, BESIDE], [Admit("job")]);
    var a, b, c := [QUIET, BEGUN, ENTERED], [ENTERED, READ_BACK], [READ_BACK, LATER, GATED];
    var d, x := [GATED, DROPPED, RETURNED], [RETURNED, BESIDE];
    var e, f, g := [Begin(0), Register(0, 7)], [Announce(0, {7})], [Read({7}, true), Gate(2)];
    var h, y := [Publish(1), End(0)], [Admit("job")];
    states, events := Join5(a, e, b, f, c, g, d, h, x, y);
  }

  // A pass has read the empty registry and stalled behind the gate.
  const STALLED := QUIET.(syncSeq := 1, publishedSeq := 1, gated := map[1 := {}])
  const LATE_BEGUN := STALLED.(flights := map[0 := Starting])
  const LATE_ENTERED := LATE_BEGUN.(flights := map[0 := Registered(7)], registered := {7}, live := {7})
  const LATE_READ := LATE_ENTERED.(flights := map[0 := Announcing(7, 2)], syncSeq := 2, passes := map[2 := {7}])
  const LATE_PUBLISHED := LATE_READ.(passes := map[], publishedSeq := 2, mirror := true)
  const LATE_ENDED := LATE_PUBLISHED.(flights := map[])
  const LATE_STORED := LATE_ENDED.(gated := map[], mirror := false)

  lemma StallAPass()
    ensures IsPath([QUIET, QUIET.(syncSeq := 1, passes := map[1 := {}]), STALLED], [Read({}, true), Gate(1)])
  {
    TwoSteps(QUIET, Read({}, true), QUIET.(syncSeq := 1, passes := map[1 := {}]), Gate(1), STALLED);
  }

  lemma EnterLate()
    ensures IsPath([STALLED, LATE_BEGUN, LATE_ENTERED], [Begin(0), Register(0, 7)])
  {
    TwoSteps(STALLED, Begin(0), LATE_BEGUN, Register(0, 7), LATE_ENTERED);
  }

  lemma PublishLate()
    ensures IsPath([LATE_ENTERED, LATE_READ, LATE_PUBLISHED], [Announce(0, {7}), Publish(2)])
  {
    TwoSteps(LATE_ENTERED, Announce(0, {7}), LATE_READ, Publish(2), LATE_PUBLISHED);
  }

  lemma StoreLate()
    ensures IsPath([LATE_PUBLISHED, LATE_ENDED, LATE_STORED], [End(0), Store(1)])
  {
    TwoSteps(LATE_PUBLISHED, End(0), LATE_ENDED, Store(1), LATE_STORED);
  }

  /** A pass that read an empty registry and stalled behind the sequence gate stores "nothing runs" over a newer
      publish, and a job gets in beside the running game. */
  lemma ALateStoreLetsAJobIn() returns (states: seq<State>, events: seq<Event>)
    ensures IsRun(states, events) && states[|events|].jobs != {} && states[|events|].live != {}
    ensures forall e :: e in events ==> Whole(e) || e.Gate? || e.Store? || e.Refuse?
  {
    StallAPass();
    EnterLate();
    PublishLate();
    StoreLate();
    var a, b := [QUIET, QUIET.(syncSeq := 1, passes := map[1 := {}]), STALLED], [STALLED, LATE_BEGUN, LATE_ENTERED];
    var c, d := [LATE_ENTERED, LATE_READ, LATE_PUBLISHED], [LATE_PUBLISHED, LATE_ENDED, LATE_STORED];
    var e, f := [Read({}, true), Gate(1)], [Begin(0), Register(0, 7)];
    var g, h := [Announce(0, {7}), Publish(2)], [End(0), Store(1)];
    Join(a, e, b, f);
    Join(a + b[1..], e + f, c, g);
    Join(a + b[1..] + c[1..], e + f + g, d, h);
    states, events := ThenAJobGetsIn(a + b[1..] + c[1..] + d[1..], e + f + g + h);
    assert events == e + f + g + h + events[|e + f + g + h|..];
  }

  lemma LookTwice()
    ensures IsPath([READ_BACK, READ_BACK.(look := SawPrograms), READ_BACK.(look := SawMirror)],
                   [LookAtPrograms, LookAtMirror])
  {
    TwoSteps(READ_BACK, LookAtPrograms, READ_BACK.(look := SawPrograms), LookAtMirror, READ_BACK.(look := SawMirror));
  }

  lemma PublishAndReturn()
    ensures IsPath([READ_BACK.(look := SawMirror), PUBLISHED.(look := SawMirror), SHOWN.(look := SawMirror)],
                   [Publish(1), End(0)])
  {
    TwoSteps(READ_BACK.(look := SawMirror), Publish(1), PUBLISHED.(look := SawMirror),
             End(0), SHOWN.(look := SawMirror));
  }

  lemma AdmitAfterLooks()
    ensures IsPath([SHOWN.(look := SawMirror), SHOWN.(jobs := {"job"})], [AdmitLooked("job")])
  {
  }

  /** A job that looks at the mirror just before a launch publishes, and at the launch count just after it returned,
      gets in beside the running game. */
  lemma TwoLooksLetAJobIn() returns (states: seq<State>, events: seq<Event>)
    ensures IsRun(states, events) && states[|events|].jobs != {} && states[|events|].live != {}
    ensures forall e :: e in events ==> Whole(e) || e.LookAtPrograms? || e.LookAtMirror? || e.AdmitLooked?
  {
    Enter();
    ReadBack();
    LookTwice();
    PublishAndReturn();
    var admitted := SHOWN.(jobs := {"job"});
    AdmitAfterLooks();
    var a, b := [QUIET, BEGUN, ENTERED], [ENTERED, READ_BACK];
    var c := [READ_BACK, READ_BACK.(look := SawPrograms), READ_BACK.(look := SawMirror)];
    var d := [READ_BACK.(look := SawMirror), PUBLISHED.(look := SawMirror), SHOWN.(look := SawMirror)];
    var x := [SHOWN.(look := SawMirror), admitted];
    var e, f, g := [Begin(0), Register(0, 7)], [Announce(0, {7})], [LookAtPrograms, LookAtMirror];
    var h, y := [Publish(1), End(0)], [AdmitLooked("job")];
    states, events := Join5(a, e, b, f, c, g, d, h, x, y);
  }
}
