/** The safe states are exactly those from which quiet steps let no dependency job in beside a game: from every other
    one there is a way, and with that each error and each gap between two looks has its exact condition. */
module AdmissionExact {
  import opened Admission

  // ------------------------------------------------------------------------- paths

  ghost predicate LeadsTo(s: State, states: seq<State>, events: seq<Event>, t: State) {
    IsQuiet(states, events) && states[0] == s && states[|events|] == t
  }

  lemma StepThen(s: State, e: Event, m: State, states: seq<State>, events: seq<Event>, t: State)
    requires IsStep(s, e, m) && Quiet(s, e) && LeadsTo(m, states, events, t)
    ensures LeadsTo(s, [s] + states, [e] + events, t)
  {
    var all, done := [s] + states, [e] + events;
    forall i | 0 <= i < |done|
      ensures IsStep(all[i], done[i], all[i + 1]) && Quiet(all[i], done[i])
    {
      if i > 0 {
        assert IsStep(states[i - 1], events[i - 1], states[i]) && Quiet(states[i - 1], events[i - 1]);
      }
    }
  }

  // ------------------------------------------------------------- from a state that is not safe

  // A game is on, no launch bars jobs, and the mirror is down to stay or an empty pass will take it down.
  ghost predicate Open(s: State) {
    && s.jobs == {} && s.live != {} && !Barred(s)
    && (!NoneOverrides(s) || (!s.mirror && !Coming(s)))
  }

  function Work(s: State): nat {
    |s.flights| + |s.passes| + |s.gated| + |s.programs| + if s.look.Idle? then 0 else 1
  }

  // What is to be done next on the way to a job.
  ghost predicate Next(s: State, e: Event) {
    Enabled(s, e) && Quiet(s, e) && Open(Apply(s, e)) && Apply(s, e).live == s.live && Work(Apply(s, e)) < Work(s)
  }

  lemma RefuseNext(s: State)
    requires Open(s) && !s.look.Idle?
    ensures Next(s, Refuse)
  {
    SameOpen(s, Apply(s, Refuse));
  }

  lemma SameOpen(s: State, t: State)
    requires Open(s) && t.jobs == s.jobs && t.live == s.live && t.flights == s.flights && t.passes == s.passes
    requires t.gated == s.gated && t.mirror == s.mirror && t.publishedSeq == s.publishedSeq
    ensures Open(t)
  {
    forall l
      ensures WillRead(s, l) <==> WillRead(t, l)
      ensures WillStore(s, l) <==> WillStore(t, l)
      ensures Owes(s, l) <==> Owes(t, l)
    {
    }
    forall q: nat
      ensures Overrides(s, q) <==> Overrides(t, q)
    {
    }
  }

  lemma ProgramNext(s: State, u: nat)
    requires Open(s) && u in s.programs
    ensures Next(s, ProgramEnds(u))
  {
    SameOpen(s, Apply(s, ProgramEnds(u)));
    assert s.programs == (s.programs - {u}) + {u};
  }

  lemma StoreNext(s: State, l: nat)
    requires Open(s) && WillStore(s, l)
    ensures Next(s, Store(s.flights[l].pass))
  {
    var q := s.flights[l].pass;
    assert s.gated[q] != {};
    var t := Apply(s, Store(q));
    var r: nat :| Overrides(s, r);
    forall m
      ensures WillRead(s, m) <==> WillRead(t, m)
      ensures WillStore(t, m) ==> WillStore(s, m) && t.gated[t.flights[m].pass] == s.gated[s.flights[m].pass]
      ensures Owes(s, m) <==> Owes(t, m)
    {
    }
    assert Overrides(t, r);
    Smaller(s.gated, q);
  }

  lemma Smaller<V>(m: map<nat, V>, k: nat)
    requires k in m
    ensures |m - {k}| < |m|
  {
    assert m.Keys == (m - {k}).Keys + {k};
  }

  lemma OverrideNext(s: State, q: nat)
    requires Open(s) && Overrides(s, q) && forall l :: !WillStore(s, l)
    ensures Next(s, Publish(q))
  {
    var t := Apply(s, Publish(q));
    forall l
      ensures WillRead(s, l) <==> WillRead(t, l)
      ensures !WillStore(t, l)
      ensures !Owes(t, l)
    {
      assert !WillStore(s, l) && (Owes(t, l) ==> Owes(s, l));
    }
    Smaller(s.passes, q);
  }

  lemma FlightNext(s: State, l: nat)
    requires Sound(s) && Open(s) && NoneOverrides(s) && l in s.flights
    ensures Next(s, End(l)) || (s.flights[l].Announcing? && Next(s, Publish(s.flights[l].pass)))
  {
    assert !Owes(s, l) && !WillStore(s, l) && !WillRead(s, l);
    if s.flights[l].Announcing? && s.flights[l].pass in s.passes {
      var q := s.flights[l].pass;
      NoMoreOpen(s, Apply(s, Publish(q)));
      Smaller(s.passes, q);
    } else {
      NoMoreOpen(s, Apply(s, End(l)));
      Smaller(s.flights, l);
    }
  }

  lemma NoMoreOpen(s: State, t: State)
    requires Open(s) && NoneOverrides(s) && t.jobs == s.jobs && t.live == s.live && t.gated == s.gated
    requires t.mirror == s.mirror && t.publishedSeq == s.publishedSeq
    requires forall l :: l in t.flights ==> l in s.flights && t.flights[l] == s.flights[l]
    requires forall q :: q in t.passes ==> q in s.passes
    ensures Open(t)
  {
    forall l
      ensures !WillRead(t, l) && !WillStore(t, l) && !Owes(t, l)
    {
      assert !WillRead(s, l) && !WillStore(s, l) && !Owes(s, l);
    }
  }

  lemma GoesOn(s: State) returns (e: Event)
    requires Sound(s) && Open(s) && (!NoneInFlight(s) || !NoneOverrides(s) || s.programs != {} || !s.look.Idle?)
    ensures Next(s, e)
  {
    if !s.look.Idle? {
      e := Refuse;
      RefuseNext(s);
    } else if u :| u in s.programs {
      e := ProgramEnds(u);
      ProgramNext(s, u);
    } else if l :| WillStore(s, l) {
      e := Store(s.flights[l].pass);
      StoreNext(s, l);
    } else if q: nat :| Overrides(s, q) {
      e := Publish(q);
      OverrideNext(s, q);
    } else {
      var l :| l in s.flights;
      FlightNext(s, l);
      e := if Next(s, End(l)) then End(l) else Publish(s.flights[l].pass);
    }
  }

  /** From a state that is not safe, quiet steps lead to a job beside a game that was on. */
  lemma {:induction false} JobGetsIn(s: State) returns (states: seq<State>, events: seq<Event>, t: State)
    requires Sound(s) && Open(s)
    ensures LeadsTo(s, states, events, t) && t.jobs != {} && t.live == s.live
    decreases Work(s)
  {
    if NoneInFlight(s) && NoneOverrides(s) && s.programs == {} && s.look.Idle? {
      t := Apply(s, Admit("job"));
      states, events := [s, t], [Admit("job")];
    } else {
      var e := GoesOn(s);
      var m := Apply(s, e);
      StepSound(s, e, m);
      states, events, t := JobGetsIn(m);
      StepThen(s, e, m, states, events, t);
      states, events := [s] + states, [e] + events;
    }
  }

  // ---------------------------------------------------------------------- exactly safe

  /** No quiet steps lead to a job beside a game or a program. */
  ghost predicate Harmless(s: State) {
    forall states, events :: IsQuiet(states, events) && states[0] == s ==> !Bad(states[|events|])
  }

  /** The safe states are exactly the harmless ones. */
  lemma SafeExactly(s: State)
    requires Sound(s)
    ensures Safe(s) <==> Harmless(s)
  {
    if Safe(s) {
      forall states, events | IsQuiet(states, events) && states[0] == s
        ensures !Bad(states[|events|])
      {
        NoGameBesideAJob(states, events, |events|);
      }
    } else if Bad(s) {
      assert IsQuiet([s], []);
    } else {
      var states, events, t := JobGetsIn(s);
      assert Bad(states[|events|]);
    }
  }

  /** The daemon starts out harmless exactly when no game of an earlier one is on or those games were published. */
  lemma StartExactly(s: State)
    requires Initial(s)
    ensures Harmless(s) <==> s.live == {} || s.mirror
  {
    SafeExactly(s);
  }

  /** With admission one look, each publish one step and every launch publishing before it returns, no game that is not
      over and no program is beside a job in any reachable state, when the games of an earlier daemon were published. */
  lemma WholeStepsKeepApart(states: seq<State>, events: seq<Event>, n: nat)
    requires IsRun(states, events) && n < |states| && forall e :: e in events ==> Whole(e)
    requires states[0].live == {} || states[0].mirror
    ensures states[n].jobs != {} ==> states[n].live == {} && states[n].programs == {} && states[n].flights == map[]
  {
    NoGameBesideAJob(states, events, n);
    JobsExcludeLaunches(states, events, n);
  }

  // A launch in flight has a publish to come that counts.
  ghost predicate Publishing(s: State) {
    exists l :: WillRead(s, l) || Owes(s, l) || WillStore(s, l)
  }

  ghost predicate ClearFits(s: State) {
    s.live == {} || Publishing(s)
  }

  ghost predicate AbandonFits(s: State, l: nat) {
    || s.live == {}
    || (exists m :: (m != l && WillRead(s, m)) || (WillStore(s, m) && s.gated[s.flights[m].pass] == {}))
    || (NoneOverrides(s) && (s.mirror || Coming(s)))
  }

  ghost predicate GateFits(s: State, q: nat) {
    || q <= s.publishedSeq || s.live == {} || Barred(s) || s.mirror
    || exists l :: (Owes(s, l) && q <= s.flights[l].pass) || WillStore(s, l)
  }

  ghost predicate StoreFits(s: State, q: nat)
    requires q in s.gated
  {
    || s.gated[q] != {} || s.live == {}
    || (exists l :: WillRead(s, l) || (WillStore(s, l) && s.flights[l].pass != q && s.gated[s.flights[l].pass] == {}))
    || (NoneOverrides(s) && exists l :: Owes(s, l) || (WillStore(s, l) && s.flights[l].pass != q))
  }

  /** What a step must meet, but for the looks of an admission, as the state it is taken in shows. */
  ghost predicate Fits(s: State, e: Event)
    requires Enabled(s, e)
  {
    match e
    case Clear => ClearFits(s)
    case Abandon(l) => AbandonFits(s, l)
    case Gate(q) => GateFits(s, q)
    case Store(q) => StoreFits(s, q)
    case _ => true
  }

  lemma AfterEvent(s: State, e: Event)
    requires Sound(s) && Enabled(s, e)
    ensures Safe(Apply(s, e)) <==> Harmless(Apply(s, e))
  {
    StepSound(s, e, Apply(s, e));
    SafeExactly(Apply(s, e));
  }

  /** Publishing that nothing runs, at the third error in a row, is harmless exactly when no game is on or a launch in
      flight has a publish to come that counts. */
  lemma ClearExactly(s: State)
    requires Sound(s) && Safe(s)
    ensures Harmless(Apply(s, Clear)) <==> ClearFits(s)
  {
    var t := Apply(s, Clear);
    AfterEvent(s, Clear);
    forall l
      ensures WillRead(s, l) <==> WillRead(t, l)
      ensures WillStore(s, l) <==> WillStore(t, l)
      ensures Owes(s, l) <==> Owes(t, l)
    {
    }
    forall q: nat
      ensures Overrides(s, q) <==> Overrides(t, q)
    {
    }
  }

  /** A launch that returns without its publish, after an error, is harmless exactly when no game is on, another launch
      bars jobs, or the mirror is up or will go up and no empty pass overrides that. */
  lemma AbandonExactly(s: State, l: nat)
    requires Sound(s) && Safe(s) && Enabled(s, Abandon(l))
    ensures Harmless(Apply(s, Abandon(l))) <==> AbandonFits(s, l)
  {
    var t := Apply(s, Abandon(l));
    AfterEvent(s, Abandon(l));
    forall m
      ensures m != l && WillRead(s, m) <==> WillRead(t, m)
      ensures WillStore(s, m) <==> WillStore(t, m)
      ensures Owes(s, m) <==> Owes(t, m)
    {
    }
    forall q: nat
      ensures Overrides(s, q) <==> Overrides(t, q)
    {
    }
  }

  /** A pass that counts and goes through the gate, to be stored later, is harmless exactly when no game is on, a launch
      bars jobs, the mirror is up, or a launch owes this pass or a later one or has one to store: an older publish, of a
      launch about to return, is dropped from now on. */
  lemma GateExactly(s: State, q: nat)
    requires Sound(s) && Safe(s) && q in s.passes
    ensures Harmless(Apply(s, Gate(q))) <==> GateFits(s, q)
  {
    var t := Apply(s, Gate(q));
    AfterEvent(s, Gate(q));
    if q <= s.publishedSeq {
      if s.live != {} { SameOwed(s, t); }
    } else {
      GateFresh(s, q, t);
    }
  }

  lemma GateFresh(s: State, q: nat, t: State)
    requires Sound(s) && Safe(s) && Fresh(s, q) && t == Apply(s, Gate(q))
    ensures Safe(t) <==> GateFits(s, q)
  {
    forall l
      ensures WillRead(s, l) <==> WillRead(t, l)
      ensures WillStore(t, l) <==> WillStore(s, l) || (Owes(s, l) && s.flights[l].pass == q)
      ensures WillStore(s, l) ==> t.gated[t.flights[l].pass] == s.gated[s.flights[l].pass]
      ensures Owes(t, l) <==> Owes(s, l) && q < s.flights[l].pass
    {
    }
    GateOverrides(s, q, t);
  }

  lemma GateOverrides(s: State, q: nat, t: State)
    requires Sound(s) && Fresh(s, q) && t == Apply(s, Gate(q))
    ensures NoneOverrides(s) ==> NoneOverrides(t)
  {
    forall r: nat | Overrides(t, r)
      ensures Overrides(s, r)
    {
      forall l | Owes(s, l)
        ensures s.flights[l].pass <= r
      {
        assert s.flights[l].pass <= q || Owes(t, l);
      }
    }
  }

  /** Storing that nothing runs, some time after the gate, is harmless exactly when no game is on, another launch bars
      jobs, or a launch in flight will put the mirror up again and no empty pass overrides that. */
  lemma StoreExactly(s: State, q: nat)
    requires Sound(s) && Safe(s) && q in s.gated
    ensures Harmless(Apply(s, Store(q))) <==> StoreFits(s, q)
  {
    var t := Apply(s, Store(q));
    AfterEvent(s, Store(q));
    if s.gated[q] != {} {
      StepSafe(s, Store(q), t);
    } else {
      StoreNothing(s, q, t);
    }
  }

  lemma StoreNothing(s: State, q: nat, t: State)
    requires Sound(s) && Safe(s) && q in s.gated && s.gated[q] == {} && t == Apply(s, Store(q))
    ensures Safe(t) <==> StoreFits(s, q)
  {
    forall l
      ensures WillRead(s, l) <==> WillRead(t, l)
      ensures WillStore(t, l) <==> WillStore(s, l) && s.flights[l].pass != q
      ensures Owes(s, l) <==> Owes(t, l)
    {
    }
    forall r: nat
      ensures Overrides(s, r) <==> Overrides(t, r)
    {
    }
  }

  lemma LookFits(s: State, e: Event)
    requires Sound(s) && Safe(s) && Enabled(s, e) && (e.LookAtPrograms? || e.LookAtMirror?)
    ensures Harmless(Apply(s, e))
  {
    if s.live != {} { SameOwed(s, Apply(s, e)); }
    AfterEvent(s, e);
  }

  lemma QuietFits(s: State, e: Event)
    requires Sound(s) && Safe(s) && Enabled(s, e) && (Whole(e) || e.Refuse?)
    ensures Harmless(Apply(s, e))
  {
    StepSafe(s, e, Apply(s, e));
    AfterEvent(s, e);
  }

  /** From a safe state a step is harmless exactly when it is quiet, or a look, or meets its condition. */
  lemma FitsExactly(s: State, e: Event)
    requires Sound(s) && Safe(s) && Enabled(s, e) && !e.AdmitLooked?
    ensures Harmless(Apply(s, e)) <==> Fits(s, e)
  {
    if e.Clear? {
      ClearExactly(s);
    } else if e.Abandon? {
      AbandonExactly(s, e.flight);
    } else if e.Gate? {
      GateExactly(s, e.pass);
    } else if e.Store? {
      StoreExactly(s, e.pass);
    } else if e.LookAtPrograms? || e.LookAtMirror? {
      LookFits(s, e);
    } else {
      QuietFits(s, e);
    }
  }
}
