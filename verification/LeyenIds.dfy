/** Game ids: a fresh one always exists and is found, and distinct ids keep the processes of two sessions apart. */
module LeyenIds {
  import opened Wrappers

  const PREFIX := "ly-"
  const DIGITS := 4
  const POOL := 10000
  const ATTEMPTS := 100

  predicate IsDigit(c: char) {
    '0' <= c <= '9'
  }

  function Digit(d: nat): (c: char)
    requires d < 10
    ensures IsDigit(c)
  {
    ('0' as int + d) as char
  }

  function Decimal(n: nat): string {
    if n < 10 then [Digit(n)] else Decimal(n / 10) + [Digit(n % 10)]
  }

  // As format!("{:0width$}") writes a number.
  function Padded(n: nat, width: nat): string {
    var digits := Decimal(n);
    if |digits| >= width then digits else seq(width - |digits|, _ => '0') + digits
  }

  function Value(digits: string): nat
    requires forall c :: c in digits ==> IsDigit(c)
  {
    if digits == [] then 0
    else
      assert IsDigit(digits[|digits| - 1]);
      Value(digits[..|digits| - 1]) * 10 + (digits[|digits| - 1] as int - '0' as int)
  }

  lemma {:induction false} DecimalReads(n: nat)
    ensures forall c :: c in Decimal(n) ==> IsDigit(c)
    ensures Value(Decimal(n)) == n && |Decimal(n)| > 0
  {
    if n >= 10 {
      DecimalReads(n / 10);
      var d := Decimal(n);
      assert d[..|d| - 1] == Decimal(n / 10);
    } else {
      assert Decimal(n)[..0] == [];
    }
  }

  lemma {:induction false} ZerosReadAsNothing(k: nat, digits: string)
    requires forall c :: c in digits ==> IsDigit(c)
    ensures forall c :: c in seq(k, _ => '0') + digits ==> IsDigit(c)
    ensures Value(seq(k, _ => '0') + digits) == Value(digits)
    decreases |digits|, k
  {
    var padded := seq(k, _ => '0') + digits;
    if digits != [] {
      ZerosReadAsNothing(k, digits[..|digits| - 1]);
      assert padded[..|padded| - 1] == seq(k, _ => '0') + digits[..|digits| - 1];
    } else if k > 0 {
      ZerosReadAsNothing(k - 1, digits);
      assert padded[..|padded| - 1] == seq(k - 1, _ => '0') + digits;
    }
  }

  lemma PaddedReads(n: nat, width: nat)
    ensures forall c :: c in Padded(n, width) ==> IsDigit(c)
    ensures Value(Padded(n, width)) == n && |Padded(n, width)| > 0
  {
    DecimalReads(n);
    if |Decimal(n)| < width {
      ZerosReadAsNothing(width - |Decimal(n)|, Decimal(n));
    }
  }

  function PooledId(n: nat): string {
    PREFIX + Padded(n, DIGITS)
  }

  function WideId(n: nat): string {
    PREFIX + Decimal(n)
  }

  predicate IsLeyenId(id: string) {
    PREFIX <= id && |id| > |PREFIX| && forall c :: c in id[|PREFIX|..] ==> IsDigit(c)
  }

  lemma WideIdsDiffer(m: nat, n: nat)
    ensures IsLeyenId(WideId(n))
    ensures WideId(m) == WideId(n) <==> m == n
  {
    DecimalReads(m);
    DecimalReads(n);
    assert WideId(m)[|PREFIX|..] == Decimal(m) && WideId(n)[|PREFIX|..] == Decimal(n);
  }

  lemma PooledIdsDiffer(m: nat, n: nat)
    ensures IsLeyenId(PooledId(n))
    ensures PooledId(m) == PooledId(n) <==> m == n
  {
    PaddedReads(m, DIGITS);
    PaddedReads(n, DIGITS);
    assert PooledId(m)[|PREFIX|..] == Padded(m, DIGITS) && PooledId(n)[|PREFIX|..] == Padded(n, DIGITS);
  }

  /** A pooled id is "ly-" and the four decimal digits of its number. */
  lemma PooledIdReads(n: nat)
    requires n < 10000
    ensures PooledId(n) == "ly-" + [('0' as int + n / 1000) as char, ('0' as int + n / 100 % 10) as char,
                                    ('0' as int + n / 10 % 10) as char, ('0' as int + n % 10) as char]
  {
    assert n / 10 / 10 == n / 100 && n / 10 / 10 / 10 == n / 1000;
    assert Decimal(n) == (if n < 10 then [] else Decimal(n / 10)) + [Digit(n % 10)];
    assert n >= 10 ==> Decimal(n / 10) == (if n < 100 then [] else Decimal(n / 100)) + [Digit(n / 10 % 10)];
    assert n >= 100 ==> Decimal(n / 100) == (if n < 1000 then [] else Decimal(n / 1000)) + [Digit(n / 100 % 10)];
    assert seq(3, _ => '0') == ['0', '0', '0'] && seq(2, _ => '0') == ['0', '0'] && seq(1, _ => '0') == ['0'];
  }

  /** For any draws and any ids in use the search ends with an unused, well-formed id. It leaves the four-digit pool
      only when that is used up, and then tries at most one number more than there are ids in use. */
  method GenerateUniqueLeyenId(existing: set<string>, draws: seq<nat>) returns (id: string, n: nat)
    requires |draws| == ATTEMPTS && forall k :: 0 <= k < ATTEMPTS ==> 1 <= draws[k] < POOL
    ensures IsLeyenId(id) && id !in existing
    ensures if n < 10000 then id == PooledId(n) else id == WideId(n)
    ensures n >= 10000 ==> n <= 10000 + |existing| && forall m :: 1 <= m < 10000 ==> PooledId(m) in existing
    ensures |existing| < 0x1_0000_0000 - 10000 ==> n < 0x1_0000_0000
  {
    for k := 0 to ATTEMPTS {
      n := draws[k];
      id := PooledId(n);
      if id !in existing {
        PooledIdsDiffer(n, n);
        return;
      }
    }
    for m := 1 to POOL
      invariant forall j :: 1 <= j < m ==> PooledId(j) in existing
    {
      n := m;
      id := PooledId(n);
      if id !in existing {
        PooledIdsDiffer(n, n);
        return;
      }
    }
    n := POOL;
    ghost var tried: set<string> := {};
    while true
      invariant n >= POOL && tried <= existing && |tried| == n - POOL
      invariant forall t :: t in tried ==> exists m :: POOL <= m < n && t == WideId(m)
      decreases |existing| - (n - POOL)
    {
      TriedBounded(tried, existing);
      id := WideId(n);
      WideIdsDiffer(n, n);
      if id !in existing {
        return;
      }
      forall t | t in tried
        ensures t != id
      {
        var m :| POOL <= m < n && t == WideId(m);
        WideIdsDiffer(m, n);
      }
      tried := tried + {id};
      TriedBounded(tried, existing);
      n := n + 1;
    }
  }

  lemma TriedBounded(tried: set<string>, existing: set<string>)
    requires tried <= existing
    ensures |tried| <= |existing|
  {
    assert existing == tried + (existing - tried);
  }

  // -------------------------------------------------------------------------- game ids

  function WithoutDashes(s: string): string {
    if s == [] then [] else (if s[0] == '-' then [] else [s[0]]) + WithoutDashes(s[1..])
  }

  function UmuGameId(leyenId: string): string {
    "umu-" + WithoutDashes(leyenId)
  }

  lemma {:induction false} DigitsHaveNoDashes(s: string)
    requires forall c :: c in s ==> IsDigit(c)
    ensures WithoutDashes(s) == s
  {
    if s != [] {
      DigitsHaveNoDashes(s[1..]);
      assert s[0] in s && IsDigit(s[0]);
      assert s == [s[0]] + s[1..];
    }
  }

  lemma {:induction false} WithoutDashesOfSum(s: string, t: string)
    ensures WithoutDashes(s + t) == WithoutDashes(s) + WithoutDashes(t)
  {
    if s == [] {
      assert s + t == t;
    } else {
      assert (s + t)[1..] == s[1..] + t;
      WithoutDashesOfSum(s[1..], t);
    }
  }

  lemma LeyenIdWithoutDash(id: string)
    requires IsLeyenId(id)
    ensures UmuGameId(id) == "umu-ly" + id[|PREFIX|..]
  {
    var digits := id[|PREFIX|..];
    assert id == PREFIX + digits;
    WithoutDashesOfSum(PREFIX, digits);
    DigitsHaveNoDashes(digits);
    PrefixWithoutDash();
    assert "umu-" + ("ly" + digits) == "umu-ly" + digits;
  }

  lemma PrefixWithoutDash()
    ensures WithoutDashes(PREFIX) == "ly"
  {
    WithoutDashesOfSum("ly", "-");
    assert PREFIX == "ly" + "-";
    assert WithoutDashes("-") == WithoutDashes("-"[1..]);
    WithoutDashesOfSum("l", "y");
    assert "l" + "y" == "ly";
    assert "l"[1..] == "" && "y"[1..] == "";
  }

  /** Distinct well-formed ids give distinct game ids, leading zeros and all. */
  lemma GameIdsDiffer(a: string, b: string)
    requires IsLeyenId(a) && IsLeyenId(b)
    ensures UmuGameId(a) == UmuGameId(b) <==> a == b
  {
    LeyenIdWithoutDash(a);
    LeyenIdWithoutDash(b);
    if UmuGameId(a) == UmuGameId(b) {
      assert UmuGameId(a)[6..] == a[|PREFIX|..] && UmuGameId(b)[6..] == b[|PREFIX|..];
      assert a == PREFIX + a[|PREFIX|..] && b == PREFIX + b[|PREFIX|..];
    }
  }

  // ------------------------------------------------------------------------- processes

  datatype Kind = Other | Server | Wine | Game | Unknown

  datatype Process = Process(kind: Kind, gameId: Option<string>, cgroup: string)

  datatype Session = Session(matchGameId: Option<string>, cgroupDir: Option<string>)

  /** The processes a session takes for its game: by the id they carry, or, when they carry none, by their scope. */
  function SessionGamePids(session: Session, universe: map<nat, Process>): set<nat> {
    set pid | pid in universe && universe[pid].kind == Game &&
      (match universe[pid].gameId
       case Some(id) => session.matchGameId == Some(id)
       case None => session.cgroupDir == Some(universe[pid].cgroup))
  }

  /** A session takes a process exactly when it is a Windows program of a game and carries the session's id, wherever it
      runs, or carries none and runs in the session's scope. */
  lemma TakesExactly(session: Session, universe: map<nat, Process>, pid: nat)
    requires pid in universe
    ensures var p := universe[pid];
      && (p.kind.Other? || p.kind.Server? || p.kind.Wine? || p.kind.Unknown? ==>
            pid !in SessionGamePids(session, universe))
      && (p.kind.Game? && p.gameId.Some? ==>
            (pid in SessionGamePids(session, universe) <==> session.matchGameId == p.gameId))
      && (p.kind.Game? && p.gameId.None? ==>
            (pid in SessionGamePids(session, universe) <==> session.cgroupDir == Some(p.cgroup)))
  {
  }

  /** Two sessions never claim one process, whatever runs, exactly when they have neither a game id nor a scope in
      common. */
  lemma SessionsShareNoProcess(a: Session, b: Session)
    ensures (forall universe: map<nat, Process> :: SessionGamePids(a, universe) !! SessionGamePids(b, universe)) <==>
      (a.matchGameId.None? || a.matchGameId != b.matchGameId) && (a.cgroupDir.None? || a.cgroupDir != b.cgroupDir)
  {
    if a.matchGameId.Some? && a.matchGameId == b.matchGameId {
      var universe := map[1 := Process(Game, a.matchGameId, "")];
      assert 1 in SessionGamePids(a, universe) && 1 in SessionGamePids(b, universe);
    } else if a.cgroupDir.Some? && a.cgroupDir == b.cgroupDir {
      var universe := map[1 := Process(Game, None, a.cgroupDir.value)];
      assert 1 in SessionGamePids(a, universe) && 1 in SessionGamePids(b, universe);
    }
  }

  /** So the sessions of two games with distinct well-formed ids, in scopes of their own, never signal each other's. */
  lemma DistinctGamesAreApart(a: string, b: string, scopeA: string, scopeB: string, universe: map<nat, Process>)
    requires IsLeyenId(a) && IsLeyenId(b) && a != b && scopeA != scopeB
    ensures SessionGamePids(Session(Some(UmuGameId(a)), Some(scopeA)), universe) !!
            SessionGamePids(Session(Some(UmuGameId(b)), Some(scopeB)), universe)
  {
    GameIdsDiffer(a, b);
  }
}
