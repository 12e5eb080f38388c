/** Saves against a version. The daemon counts the libraries it accepts and takes one only when it names the current
    count; every client process holds one count for all the libraries it is editing, and names it when it sends one.
    What that promises about the library a client had read. */
module LibraryVersions {

  /** A count the daemon has given out. `edition` is the accepted library it stood for, counted over all the daemon's
      lives, and `life` the one it was counted in. */
  datatype Version = Version(number: nat, edition: nat, life: nat)

  /** A library some client is editing, and the edition it was read from. */
  datatype Copy = Copy(client: nat, edition: nat)

  /** A library on its way to the daemon. */
  datatype Request = Request(base: Version, edition: nat)

  /** `version` starts at 1 in each life of the daemon; `start` is the edition that life began with. `given` has every
      version there was, `held` the one each client holds; `overwrote` tells whether an accepted library was built on
      one that was not the latest. */
  datatype State = State(
    version: nat, edition: nat, life: nat, start: nat, given: seq<Version>,
    held: seq<Version>, copies: seq<Copy>, requests: seq<Request>, overwrote: bool)

  /** A client process starts; one reads the library to edit it; one adopts a version, from the change signal, the
      answer to a save or after a restart, and the signal may be late; one sends a library, after it asked for the
      version if that was `answered`; the daemon handles a request and may fail to write it; the daemon starts again.
      */
  datatype Event =
    | Open
    | Read(client: nat)
    | Told(client: nat, which: nat)
    | Send(copy: nat, answered: bool)
    | Handle(request: nat, written: bool)
    | Restart

  /** The first count there is, which a client holds before it has heard of any. */
  const FIRST := Version(1, 0, 0)

  function Current(s: State): Version {
    Version(s.version, s.edition, s.life)
  }

  /** What a client holds once it has asked: a lower version can only come from a restart, so it is adopted. */
  function Lowered(s: State, held: Version, answered: bool): Version {
    if answered && s.version < held.number then Current(s) else held
  }

  predicate Taken(s: State, r: Request) {
    r.base.number == s.version
  }

  function Accepted(s: State, r: Request): State {
    s.(version := s.version + 1, edition := s.edition + 1,
       given := s.given + [Version(s.version + 1, s.edition + 1, s.life)],
       overwrote := s.overwrote || r.edition != s.edition)
  }

  function Sent(s: State, c: Copy, answered: bool): State
    requires c.client < |s.held|
  {
    var base := Lowered(s, s.held[c.client], answered);
    s.(held := s.held[c.client := base], requests := s.requests + [Request(base, c.edition)])
  }

  function Handled(s: State, k: nat, written: bool): State
    requires k < |s.requests|
  {
    var t := if Taken(s, s.requests[k]) && written then Accepted(s, s.requests[k]) else s;
    t.(requests := s.requests[..k] + s.requests[k + 1..])
  }

  predicate CanSend(s: State, k: nat) {
    k < |s.copies| && s.copies[k].client < |s.held|
  }

  /** One step; a step that is not possible changes nothing. */
  function Next(s: State, e: Event): State {
    match e
    case Open => s.(held := s.held + [FIRST])
    case Read(c) => s.(copies := s.copies + [Copy(c, s.edition)])
    case Told(c, i) => if c < |s.held| && i < |s.given| then s.(held := s.held[c := s.given[i]]) else s
    case Send(k, answered) => if CanSend(s, k) then Sent(s, s.copies[k], answered) else s
    case Handle(k, written) => if k < |s.requests| then Handled(s, k, written) else s
    case Restart => s.(version := 1, life := s.life + 1, start := s.edition,
                       given := s.given + [Version(1, s.edition, s.life + 1)])
  }

  const INITIAL := State(1, 0, 0, 0, [FIRST], [], [], [], false)

  function After(events: seq<Event>): State {
    if events == [] then INITIAL else Next(After(events[..|events| - 1]), events[|events| - 1])
  }

  // ------------------------------------------------------------------- what every run keeps

  /** What a version says of the saves since it was given out. */
  predicate Counted(s: State, v: Version) {
    v.number >= 1 &&
    if v.life == s.life then v.number <= s.version && s.edition - v.edition == s.version - v.number
    else v.life < s.life && v.edition <= s.start
  }

  ghost predicate Inv(s: State) {
    && s.version >= 1 && s.edition - s.start == s.version - 1 && Counted(s, FIRST)
    && (forall v :: v in s.given ==> Counted(s, v))
    && (forall v :: v in s.held ==> Counted(s, v))
    && (forall r :: r in s.requests ==> Counted(s, r.base) && r.edition <= s.edition)
    && (forall c :: c in s.copies ==> c.edition <= s.edition)
  }

  // A version stays counted through accepted saves and restarts.
  lemma StaysCounted(s: State, e: Event, v: Version)
    requires Counted(s, v) && s.version >= 1 && s.edition - s.start == s.version - 1
    ensures Counted(Next(s, e), v)
  {
  }

  lemma VersionsStay(s: State, e: Event)
    requires Inv(s)
    ensures forall v :: Counted(s, v) ==> Counted(Next(s, e), v)
  {
    forall v | Counted(s, v)
      ensures Counted(Next(s, e), v)
    {
      StaysCounted(s, e, v);
    }
  }

  lemma StepInv(s: State, e: Event)
    requires Inv(s)
    ensures Inv(Next(s, e))
  {
    VersionsStay(s, e);
    match e
    case Send(k, answered) =>
      if CanSend(s, k) { assert s.held[s.copies[k].client] in s.held && s.copies[k] in s.copies; }
    case _ =>
  }

  lemma {:induction false} RunInv(events: seq<Event>)
    ensures Inv(After(events))
  {
    if events != [] {
      RunInv(events[..|events| - 1]);
      StepInv(After(events[..|events| - 1]), events[|events| - 1]);
    }
  }

  // --------------------------------------------------------------------- what is overwritten

  // The library the request was built on is not the latest.
  predicate Stale(s: State, r: Request) {
    r.edition != s.edition
  }

  /** Over any run a save overwrites one that its client did not read exactly when one was accepted since it read and
      the version it names was given out after the last one, or, the daemon having restarted since, has the number
      that the saves since the restart have come to. */
  lemma OverwritesExactly(events: seq<Event>, r: Request)
    requires r in After(events).requests
    ensures var s := After(events);
      Taken(s, r) && Stale(s, r) <==>
        && r.edition < s.edition
        && if r.base.life == s.life then r.base.edition == s.edition else r.base.number - 1 == s.edition - s.start
  {
    RunInv(events);
    assert Counted(After(events), r.base);
  }

  /** In one life of the daemon a save is taken exactly when none was since its version was given out, and one that is
      taken overwrites one unread exactly when its library is older than that version: when the client adopted a newer
      one without reading again. */
  lemma AcceptedExactly(events: seq<Event>, r: Request)
    requires r in After(events).requests && r.base.life == After(events).life
    ensures var s := After(events);
      && (Taken(s, r) <==> r.base.edition == s.edition)
      && (Taken(s, r) ==> (Stale(s, r) <==> r.edition < r.base.edition))
  {
    RunInv(events);
    assert Counted(After(events), r.base);
  }

  // ------------------------------------------------------------------------ over whole runs

  /** Unless clients may be `told`, each sends a library only by a version no newer than the library it read; and there
      are no restarts unless those may happen. */
  predicate Allowed(s: State, e: Event, told: bool, restarts: bool) {
    && (e.Restart? ==> restarts)
    && (e.Send? && !told && CanSend(s, e.copy) ==>
          Lowered(s, s.held[s.copies[e.copy].client], e.answered).edition <= s.copies[e.copy].edition)
  }

  predicate IsRun(events: seq<Event>, told: bool, restarts: bool) {
    events == [] ||
    var front := events[..|events| - 1];
    IsRun(front, told, restarts) && Allowed(After(front), events[|events| - 1], told, restarts)
  }

  ghost predicate Careful(s: State) {
    && s.life == 0 && !s.overwrote
    && (forall v :: v in s.given || v in s.held ==> v.life == 0)
    && forall r :: r in s.requests ==> r.base.life == 0 && r.base.edition <= r.edition
  }

  lemma StepCareful(s: State, e: Event)
    requires Inv(s) && Careful(s) && Allowed(s, e, false, false)
    ensures Careful(Next(s, e))
  {
    match e
    case Send(k, answered) =>
      if CanSend(s, k) { assert s.held[s.copies[k].client] in s.held; }
    case Handle(k, written) =>
      if k < |s.requests| { assert s.requests[k] in s.requests && Counted(s, s.requests[k].base); }
    case _ =>
  }

  lemma {:induction false} RunCareful(events: seq<Event>)
    requires IsRun(events, false, false)
    ensures Careful(After(events))
  {
    if events != [] {
      var front := events[..|events| - 1];
      RunCareful(front);
      RunInv(front);
      StepCareful(After(front), events[|events| - 1]);
    }
  }

  lemma Then(events: seq<Event>, e: Event, told: bool, restarts: bool) returns (more: seq<Event>)
    requires IsRun(events, told, restarts) && Allowed(After(events), e, told, restarts)
    ensures IsRun(more, told, restarts) && After(more) == Next(After(events), e)
  {
    more := events + [e];
    assert more[..|more| - 1] == events;
  }

  // Two clients have read the library.
  const BOTH_READ := State(1, 0, 0, 0, [FIRST], [FIRST, FIRST], [Copy(0, 0), Copy(1, 0)], [], false)

  lemma BothRead(told: bool, restarts: bool) returns (events: seq<Event>)
    ensures IsRun(events, told, restarts) && After(events) == BOTH_READ
  {
    events := Then([], Open, told, restarts);
    events := Then(events, Open, told, restarts);
    events := Then(events, Read(0), told, restarts);
    events := Then(events, Read(1), told, restarts);
  }

  // And the second one's save was taken.
  const OTHER_SAVED :=
    BOTH_READ.(version := 2, edition := 1, given := [FIRST, Version(2, 1, 0)])

  lemma TheOtherSaves(told: bool, restarts: bool) returns (events: seq<Event>)
    ensures IsRun(events, told, restarts) && After(events) == OTHER_SAVED
  {
    events := BothRead(told, restarts);
    events := Then(events, Send(1, true), told, restarts);
    assert [FIRST, FIRST][1 := FIRST] == [FIRST, FIRST];
    assert After(events) == BOTH_READ.(requests := [Request(FIRST, 0)]);
    events := Then(events, Handle(0, true), told, restarts);
  }

  // The first client's save, whose library was read before the other's, is taken.
  lemma TheFirstSaves(events: seq<Event>, told: bool, restarts: bool) returns (more: seq<Event>)
    requires IsRun(events, told, restarts)
    requires var s := After(events);
      && |s.held| == 2 && s.copies == [Copy(0, 0), Copy(1, 0)] && s.requests == []
      && s.edition == 1 && s.held[0].number == s.version && (s.held[0].edition == 0 || told)
    ensures IsRun(more, told, restarts) && After(more).overwrote && After(more).life == After(events).life
  {
    var s := After(events);
    more := Then(events, Send(0, true), told, restarts);
    assert After(more).requests == [Request(s.held[0], 0)];
    more := Then(more, Handle(0, true), told, restarts);
  }

  /** A run in which the daemon restarts before the first client's save, which is taken over the one it has not read. */
  lemma ARestartLosesASave(told: bool) returns (events: seq<Event>)
    ensures IsRun(events, told, true) && After(events).overwrote
  {
    events := TheOtherSaves(told, true);
    events := Then(events, Restart, told, true);
    events := TheFirstSaves(events, told, true);
  }

  /** A run in one life of the daemon in which the first client is told of the change while it edits, and its save is
      taken over the one it has not read. */
  lemma AToldClientLosesASave(restarts: bool) returns (events: seq<Event>)
    ensures IsRun(events, true, restarts) && After(events).overwrote && After(events).life == 0
  {
    events := TheOtherSaves(true, restarts);
    events := Then(events, Told(0, 1), true, restarts);
    events := TheFirstSaves(events, true, restarts);
  }

  /** Over every run no save overwrites one its client had not read, exactly when there are no restarts and clients do
      not send a library by a version newer than it. */
  lemma NeverOverwritesExactly(told: bool, restarts: bool)
    ensures (forall events | IsRun(events, told, restarts) :: !After(events).overwrote) <==> !told && !restarts
  {
    if restarts {
      var events := ARestartLosesASave(told);
    } else if told {
      var events := AToldClientLosesASave(restarts);
    } else {
      forall events | IsRun(events, false, false)
        ensures !After(events).overwrote
      {
        RunCareful(events);
      }
    }
  }
}
