/** The registry of running games and the claims that finalize each ended session
    once. */
module Sessions {
  import opened Wrappers

  /** A session's identity: its game and the second it was started. */
  datatype Key = Key(gameId: string, startedAt: nat)

  datatype Session = Session(key: Key, cgroupDir: Option<string>, gameSeen: bool)

  /** How long a claim is kept. */
  const DAY: nat := 24 * 60 * 60

  datatype Claim = Claim(done: bool, at: nat)

  type Claims = map<Key, Claim>

  // -------------------------------------------------------------------- the claims

  function Horizon(now: nat): nat { if now < DAY then 0 else now - DAY }

  function Prune(claims: Claims, now: nat): Claims {
    map key | key in claims && claims[key].at >= Horizon(now) :: claims[key]
  }

  function AfterClaim(claims: Claims, key: Key, now: nat): Claims {
    var kept := Prune(claims, now);
    if key in kept then kept else kept[key := Claim(false, now)]
  }

  predicate WinsClaim(claims: Claims, key: Key, now: nat) {
    key !in Prune(claims, now)
  }

  function AfterMark(claims: Claims, key: Key, now: nat): Claims {
    claims[key := if key in claims then claims[key].(done := true) else Claim(true, now)]
  }

  predicate IsDone(claims: Claims, key: Key) {
    key in claims && claims[key].done
  }

  // ------------------------------------------------------ what a done claim means

  datatype ClaimCall = CallClaim(key: Key, now: nat) | CallMark(key: Key, now: nat)

  function AfterCall(claims: Claims, call: ClaimCall): Claims {
    match call
    case CallClaim(key, now) => AfterClaim(claims, key, now)
    case CallMark(key, now) => AfterMark(claims, key, now)
  }

  function AfterCalls(claims: Claims, calls: seq<ClaimCall>): Claims {
    if calls == [] then claims
    else AfterCall(AfterCalls(claims, calls[..|calls| - 1]), calls[|calls| - 1])
  }

  /** Marking finishes its own session and no other, and takes no claim from anyone:
      as long as the claim is kept, nobody wins it again. */
  lemma MarkFinishes(claims: Claims, key: Key, now: nat, other: Key, later: nat)
    ensures IsDone(AfterMark(claims, key, now), other) <==> other == key || IsDone(claims, other)
    ensures other in claims ==>
      (WinsClaim(AfterMark(claims, key, now), other, later) <==> WinsClaim(claims, other, later))
    ensures key !in claims ==> (WinsClaim(AfterMark(claims, key, now), key, later) <==> now < Horizon(later))
  {
  }

  /** A finished session reads as done, through any claims and marks of others and
      any claim of its own, exactly until a claim is made more than a day after its
      own was. */
  lemma {:induction false} DoneUntilPruned(claims: Claims, calls: seq<ClaimCall>, key: Key)
    requires IsDone(claims, key) && forall i | 0 <= i < |calls| :: calls[i].CallMark? ==> calls[i].key != key
    ensures IsDone(AfterCalls(claims, calls), key) <==>
      forall i | 0 <= i < |calls| && calls[i].CallClaim? :: claims[key].at >= Horizon(calls[i].now)
    ensures IsDone(AfterCalls(claims, calls), key) ==> AfterCalls(claims, calls)[key] == claims[key]
  {
    if calls != [] {
      DoneUntilPruned(claims, calls[..|calls| - 1], key);
    }
  }

  class FinalizeClaims {
    var claimed: Claims

    constructor ()
      ensures claimed == map[]
    {
      claimed := map[];
    }

    /** Claims `key`; false when it is claimed already. */
    method ClaimSessionFinalize(key: Key, now: nat) returns (won: bool)
      modifies this
      ensures claimed == AfterClaim(old(claimed), key, now)
      ensures won <==> WinsClaim(old(claimed), key, now)
    {
      claimed := Prune(claimed, now);
      if key in claimed { return false; }
      claimed := claimed[key := Claim(false, now)];
      return true;
    }

    method MarkSessionFinalized(key: Key, now: nat)
      modifies this
      ensures claimed == AfterMark(old(claimed), key, now)
    {
      if key in claimed {
        claimed := claimed[key := claimed[key].(done := true)];
      } else {
        claimed := claimed[key := Claim(true, now)];
      }
    }

    method SessionFinalizeDone(key: Key) returns (done: bool)
      ensures done == IsDone(claimed, key)
    {
      done := key in claimed && claimed[key].done;
    }
  }

  // ------------------------------------------------------------------ the registry

  function Keys(sessions: seq<Session>): (keys: set<Key>) {
    set session | session in sessions :: session.key
  }

  /** Some session of the game is not being finalized. */
  predicate IsDuplicate(sessions: seq<Session>, gameId: string, claims: Claims) {
    exists i | 0 <= i < |sessions| :: sessions[i].key.gameId == gameId && sessions[i].key !in claims
  }

  function AfterRegister(sessions: seq<Session>, session: Session, claims: Claims): seq<Session> {
    if IsDuplicate(sessions, session.key.gameId, claims) then sessions else sessions + [session]
  }

  /** The sessions whose key is not in `dropped`, in order. */
  function Without(sessions: seq<Session>, dropped: set<Key>): seq<Session> {
    if sessions == [] then []
    else
      var last := sessions[|sessions| - 1];
      Without(sessions[..|sessions| - 1], dropped) + if last.key in dropped then [] else [last]
  }

  /** What a scan found out about a live session. */
  datatype Update = Update(cgroupDir: Option<string>, gameSeen: bool)

  function Updated(session: Session, updates: map<Key, Update>): Session {
    if session.key !in updates then session
    else
      var u := updates[session.key];
      Session(session.key, if session.cgroupDir.None? then u.cgroupDir else session.cgroupDir,
              session.gameSeen || u.gameSeen)
  }

  function UpdatedAll(sessions: seq<Session>, updates: map<Key, Update>): seq<Session> {
    seq(|sessions|, i requires 0 <= i < |sessions| => Updated(sessions[i], updates))
  }

  /** What is known of a session once known stays: its scope is never replaced, and once its game was seen it was
      seen. The scan's findings fill in what was not known. */
  ghost predicate Learned(before: Session, after: Session, updates: map<Key, Update>) {
    && after.key == before.key
    && (before.cgroupDir.Some? ==> after.cgroupDir == before.cgroupDir)
    && (before.cgroupDir.None? ==>
          after.cgroupDir == if before.key in updates then updates[before.key].cgroupDir else None)
    && (after.gameSeen <==> before.gameSeen || (before.key in updates && updates[before.key].gameSeen))
  }

  function UpdatedBy(sessions: seq<Session>, scans: seq<map<Key, Update>>): seq<Session> {
    if scans == [] then sessions else UpdatedAll(UpdatedBy(sessions, scans[..|scans| - 1]), scans[|scans| - 1])
  }

  /** Over any scans a session's scope is the first one that was found for it, and its game was seen when some scan
      saw it or it was seen before. */
  lemma {:induction false} FirstScopeStays(sessions: seq<Session>, scans: seq<map<Key, Update>>, i: nat)
    requires i < |sessions|
    ensures |UpdatedBy(sessions, scans)| == |sessions|
    ensures var s, after := sessions[i], UpdatedBy(sessions, scans)[i];
      && after.key == s.key
      && (after.gameSeen <==>
            s.gameSeen || exists k :: 0 <= k < |scans| && s.key in scans[k] && scans[k][s.key].gameSeen)
      && (s.cgroupDir.Some? ==> after.cgroupDir == s.cgroupDir)
      && (s.cgroupDir.None? && after.cgroupDir.Some? ==>
            exists k :: 0 <= k < |scans| && FirstFound(scans, s.key, k, after.cgroupDir))
      && (s.cgroupDir.None? && after.cgroupDir.None? ==>
            forall k :: 0 <= k < |scans| && s.key in scans[k] ==> scans[k][s.key].cgroupDir.None?)
  {
    if scans != [] {
      var front, last := scans[..|scans| - 1], scans[|scans| - 1];
      FirstScopeStays(sessions, front, i);
      var s, before, after := sessions[i], UpdatedBy(sessions, front)[i], UpdatedBy(sessions, scans)[i];
      if s.cgroupDir.None? && before.cgroupDir.Some? {
        var k :| 0 <= k < |front| && FirstFound(front, s.key, k, before.cgroupDir);
        assert FirstFound(scans, s.key, k, before.cgroupDir);
      } else if s.cgroupDir.None? && after.cgroupDir.Some? {
        assert forall k :: 0 <= k < |front| ==> front[k] == scans[k];
        assert FirstFound(scans, s.key, |scans| - 1, after.cgroupDir);
      }
      if exists k :: 0 <= k < |front| && s.key in front[k] && front[k][s.key].gameSeen {
        var k :| 0 <= k < |front| && s.key in front[k] && front[k][s.key].gameSeen;
        assert scans[k] == front[k];
      }
    }
  }

  ghost predicate FirstFound(scans: seq<map<Key, Update>>, key: Key, k: nat, scope: Option<string>) {
    && k < |scans| && key in scans[k] && scans[k][key].cgroupDir == scope
    && forall j :: 0 <= j < k && key in scans[j] ==> scans[j][key].cgroupDir.None?
  }

  class RunningRegistry {
    var sessions: seq<Session>

    /** Registers a launch unless a session of its game is running. */
    method TryRegister(session: Session, claims: FinalizeClaims) returns (registered: bool)
      modifies this
      ensures registered <==> !IsDuplicate(old(sessions), session.key.gameId, claims.claimed)
      ensures sessions == AfterRegister(old(sessions), session, claims.claimed)
    {
      for i := 0 to |sessions|
        invariant sessions == old(sessions)
        invariant forall k | 0 <= k < i ::
                    sessions[k].key.gameId != session.key.gameId || sessions[k].key in claims.claimed
      {
        if sessions[i].key.gameId == session.key.gameId && sessions[i].key !in claims.claimed {
          return false;
        }
      }
      sessions := sessions + [session];
      return true;
    }

    /** Takes a scan's findings over and returns the sessions it left active. A
        finished session stays registered until it is finalized. */
    method ApplyUpdates(updates: map<Key, Update>, finished: set<Key>)
      returns (active: seq<Session>, dirty: bool)
      modifies this
      ensures sessions == UpdatedAll(old(sessions), updates)
      ensures |sessions| == |old(sessions)|
      ensures forall i | 0 <= i < |sessions| :: Learned(old(sessions)[i], sessions[i], updates)
      ensures active == Without(sessions, finished)
      ensures dirty <==> sessions != old(sessions)
    {
      dirty := false;
      for i := 0 to |sessions|
        invariant |sessions| == |old(sessions)|
        invariant forall k | 0 <= k < i :: sessions[k] == Updated(old(sessions)[k], updates)
        invariant forall k | i <= k < |sessions| :: sessions[k] == old(sessions)[k]
        invariant dirty <==> sessions != old(sessions)
      {
        var s := Updated(sessions[i], updates);
        if s != sessions[i] {
          sessions := sessions[i := s];
          assert sessions[i] != old(sessions)[i];
          dirty := true;
        }
      }
      active := [];
      for i := 0 to |sessions|
        invariant active == Without(sessions[..i], finished)
      {
        assert sessions[..i + 1][..i] == sessions[..i];
        if sessions[i].key !in finished { active := active + [sessions[i]]; }
      }
      assert sessions[..|sessions|] == sessions;
    }

    /** Drops the sessions with `key`. */
    method Drop(key: Key) returns (changed: bool)
      modifies this
      ensures sessions == Without(old(sessions), {key})
      ensures changed <==> |sessions| != |old(sessions)|
    {
      var kept: seq<Session> := [];
      for i := 0 to |sessions|
        invariant sessions == old(sessions)
        invariant kept == Without(sessions[..i], {key})
      {
        assert sessions[..i + 1][..i] == sessions[..i];
        if sessions[i].key != key { kept := kept + [sessions[i]]; }
      }
      assert sessions[..|sessions|] == sessions;
      changed := |kept| != |sessions|;
      sessions := kept;
    }
  }

  ghost predicate DistinctKeys(sessions: seq<Session>) {
    forall i, j | 0 <= i < j < |sessions| :: sessions[i].key != sessions[j].key
  }

  /** Of two sessions of one game, one is being finalized. */
  ghost predicate OneUnclaimed(sessions: seq<Session>, claimed: set<Key>) {
    forall i, j | 0 <= i < j < |sessions| && sessions[i].key.gameId == sessions[j].key.gameId ::
      sessions[i].key in claimed || sessions[j].key in claimed
  }

  lemma KeysSnoc(sessions: seq<Session>, session: Session)
    ensures Keys(sessions + [session]) == Keys(sessions) + {session.key}
  {
    var all := sessions + [session];
    forall key | key in Keys(sessions) + {session.key} ensures key in Keys(all) {
      if key in Keys(sessions) {
        var s :| s in sessions && s.key == key;
        assert s in all;
      } else {
        assert session in all;
      }
    }
  }

  lemma {:induction false} WithoutKeys(sessions: seq<Session>, dropped: set<Key>)
    ensures Keys(Without(sessions, dropped)) == Keys(sessions) - dropped
    ensures forall s | s in Without(sessions, dropped) :: s in sessions
  {
    if sessions != [] {
      var last := |sessions| - 1;
      WithoutKeys(sessions[..last], dropped);
      assert sessions == sessions[..last] + [sessions[last]];
      KeysSnoc(sessions[..last], sessions[last]);
      KeysSnoc(Without(sessions[..last], dropped), sessions[last]);
      assert Without(sessions[..last], dropped) + [] == Without(sessions[..last], dropped);
    }
  }

  lemma UpdatedKeys(sessions: seq<Session>, updates: map<Key, Update>)
    ensures Keys(UpdatedAll(sessions, updates)) == Keys(sessions)
  {
    var after := UpdatedAll(sessions, updates);
    forall key ensures key in Keys(after) <==> key in Keys(sessions) {
      if key in Keys(sessions) {
        var i :| 0 <= i < |sessions| && sessions[i].key == key;
        assert after[i] in after;
      }
      if key in Keys(after) {
        var i :| 0 <= i < |after| && after[i].key == key;
        assert sessions[i] in sessions;
      }
    }
  }

  /** Dropping sessions keeps the others apart. */
  lemma {:induction false} WithoutKeeps(sessions: seq<Session>, dropped: set<Key>, claimed: set<Key>)
    ensures DistinctKeys(sessions) ==> DistinctKeys(Without(sessions, dropped))
    ensures OneUnclaimed(sessions, claimed) ==> OneUnclaimed(Without(sessions, dropped), claimed)
  {
    if sessions != [] {
      var last := |sessions| - 1;
      var front := Without(sessions[..last], dropped);
      WithoutKeeps(sessions[..last], dropped, claimed);
      WithoutKeys(sessions[..last], dropped);
      forall i | 0 <= i < |front| ensures exists k :: 0 <= k < last && sessions[k] == front[i] {
        assert front[i] in sessions[..last];
      }
    }
  }
}
