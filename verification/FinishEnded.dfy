/** A daemon about to exit waits while a finalize is counted as under way. What that wait sees, and what it does not. */
module FinishEnded {

  /** A pass that finalizes a session: it has won the claim, counts as finalizing, has recorded the playtime. */
  datatype Phase = Claimed(key: nat) | Counted(key: nat) | Recorded(key: nat)

  datatype State = State(passes: map<nat, Phase>, counter: int, claimed: set<nat>, recorded: set<nat>)

  datatype Event =
    | Claim(pass: nat, key: nat)
    | Count(pass: nat)
    | Record(pass: nat)
    | Uncount(pass: nat)

  predicate Enabled(s: State, e: Event) {
    match e
    case Claim(p, k) => p !in s.passes && k !in s.claimed
    case Count(p) => p in s.passes && s.passes[p].Claimed?
    case Record(p) => p in s.passes && s.passes[p].Counted?
    case Uncount(p) => p in s.passes && s.passes[p].Recorded?
  }

  function Apply(s: State, e: Event): State
    requires Enabled(s, e)
  {
    match e
    case Claim(p, k) => s.(passes := s.passes[p := Claimed(k)], claimed := s.claimed + {k})
    case Count(p) => s.(passes := s.passes[p := Counted(s.passes[p].key)], counter := s.counter + 1)
    case Record(p) => s.(passes := s.passes[p := Recorded(s.passes[p].key)], recorded := s.recorded + {s.passes[p].key})
    case Uncount(p) => s.(passes := s.passes - {p}, counter := s.counter - 1)
  }

  function After(events: seq<Event>): State {
    if events == [] then State(map[], 0, {}, {})
    else
      var s := After(events[..|events| - 1]);
      if Enabled(s, events[|events| - 1]) then Apply(s, events[|events| - 1]) else s
  }

  function Busy(s: State): set<nat> {
    set p | p in s.passes && !s.passes[p].Claimed?
  }

  // A claimed session that no playtime was recorded for has a pass at work on it, and one only.
  ghost predicate WorkedOn(s: State, k: nat) {
    exists p :: p in s.passes && !s.passes[p].Recorded? && s.passes[p].key == k
  }

  ghost predicate Inv(s: State) {
    && s.counter == |Busy(s)|
    && s.recorded <= s.claimed
    && (forall p :: p in s.passes ==> s.passes[p].key in s.claimed)
    && (forall p :: p in s.passes && !s.passes[p].Recorded? ==> s.passes[p].key !in s.recorded)
    && (forall p, q :: p in s.passes && q in s.passes && p != q ==> s.passes[p].key != s.passes[q].key)
    && (forall k :: k in s.claimed && k !in s.recorded ==> WorkedOn(s, k))
  }

  lemma BusyAfter(s: State, e: Event)
    requires Enabled(s, e)
    ensures Busy(Apply(s, e)) == match e
      case Claim(_, _) => Busy(s)
      case Count(p) => Busy(s) + {p}
      case Record(_) => Busy(s)
      case Uncount(p) => Busy(s) - {p}
    ensures e.Count? ==> e.pass !in Busy(s)
    ensures e.Uncount? ==> e.pass in Busy(s)
  {
  }

  lemma CounterAfter(s: State, e: Event)
    requires Enabled(s, e) && s.counter == |Busy(s)|
    ensures Apply(s, e).counter == |Busy(Apply(s, e))|
  {
    BusyAfter(s, e);
  }

  lemma WorkAfter(s: State, e: Event, k: nat)
    requires Inv(s) && Enabled(s, e) && k in Apply(s, e).claimed && k !in Apply(s, e).recorded
    ensures WorkedOn(Apply(s, e), k)
  {
    var t := Apply(s, e);
    if e.Claim? && k == e.key {
      assert t.passes[e.pass].key == k;
    } else {
      var p :| p in s.passes && !s.passes[p].Recorded? && s.passes[p].key == k;
      assert p in t.passes && !t.passes[p].Recorded? && t.passes[p].key == k;
    }
  }

  lemma StepInv(s: State, e: Event)
    requires Inv(s) && Enabled(s, e)
    ensures Inv(Apply(s, e))
  {
    CounterAfter(s, e);
    forall k | k in Apply(s, e).claimed && k !in Apply(s, e).recorded
      ensures WorkedOn(Apply(s, e), k)
    {
      WorkAfter(s, e, k);
    }
  }

  lemma {:induction false} RunInv(events: seq<Event>)
    ensures Inv(After(events))
  {
    if events != [] {
      RunInv(events[..|events| - 1]);
      var s := After(events[..|events| - 1]);
      if Enabled(s, events[|events| - 1]) {
        StepInv(s, events[|events| - 1]);
      }
    }
  }

  /** When the count is zero and the daemon exits, over any run of passes, every session anyone claimed is recorded
      exactly when no pass stands between winning a claim and being counted. */
  lemma ExitLosesExactly(events: seq<Event>)
    requires After(events).counter == 0
    ensures var s := After(events);
      s.claimed == s.recorded <==> forall p :: p in s.passes ==> !s.passes[p].Claimed?
  {
    RunInv(events);
    var s := After(events);
    assert Busy(s) == {};
    if s.claimed != s.recorded {
      var k :| k in s.claimed && k !in s.recorded;
      var p :| p in s.passes && !s.passes[p].Recorded? && s.passes[p].key == k;
      assert p !in Busy(s);
    } else {
      forall p | p in s.passes
        ensures !s.passes[p].Claimed?
      {
        assert p !in Busy(s);
      }
    }
  }

  /** The daemon can exit over a claim just won. */
  lemma AnExitLosesOne()
    ensures After([Claim(0, 7)]).counter == 0 && 7 in After([Claim(0, 7)]).claimed - After([Claim(0, 7)]).recorded
  {
    assert [Claim(0, 7)][..0] == [];
  }
}
