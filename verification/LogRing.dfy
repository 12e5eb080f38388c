/** The in-memory log: a bounded channel into a bounded ring that clients pull
    from by offset. */
module LogRing {
  import opened Wrappers

  /** Most lines the ring keeps. */
  const MAX_UI_LOGS: nat := 1000

  function SaturatingSub(a: nat, b: nat): nat { if a < b then 0 else a - b }

  // -------------------------------------------------------------------- the ring

  /** The ring and its count of every line since it was last cleared. */
  datatype Ring<T> = Ring(entries: seq<T>, total: nat)

  function Push<T>(ring: Ring<T>, entry: T): Ring<T> {
    var kept := if |ring.entries| >= MAX_UI_LOGS then ring.entries[1..] else ring.entries;
    Ring(kept + [entry], ring.total + 1)
  }

  /** How many retained entries to skip to serve all at or after `since`. */
  function BatchSkip(total: nat, len: nat, since: nat): nat {
    Min(SaturatingSub(since, SaturatingSub(total, len)), len)
  }

  function Batch<T>(ring: Ring<T>, since: nat): seq<T> {
    ring.entries[BatchSkip(ring.total, |ring.entries|, since)..]
  }

  /** The ring holds the end of the log, and counts all of it. */
  ghost predicate Refines<T>(ring: Ring<T>, log: seq<T>) {
    && ring.total == |log|
    && ring.entries == log[|log| - Min(|log|, MAX_UI_LOGS)..]
  }

  /** A pull returns exactly the retained lines at or after the offset. */
  lemma BatchExact<T>(ring: Ring<T>, log: seq<T>, since: nat)
    requires Refines(ring, log)
    ensures var oldest := SaturatingSub(|log|, MAX_UI_LOGS);
            Batch(ring, since) == log[Min(if since < oldest then oldest else since, |log|)..]
  {
  }

  class LogBuffer<T(==)> {
    var entries: seq<T>
    var total: nat
    /** Every line since the buffer was last cleared. */
    ghost var log: seq<T>

    ghost function Value(): Ring<T> reads this { Ring(entries, total) }

    ghost predicate Valid() reads this { Refines(Value(), log) }

    constructor ()
      ensures Valid() && log == []
    {
      entries, total, log := [], 0, [];
    }

    /** The writer thread's update for one line. */
    method Append(entry: T)
      requires Valid()
      modifies this
      ensures Valid() && log == old(log) + [entry] && Value() == Push(old(Value()), entry)
    {
      if |entries| >= MAX_UI_LOGS {
        entries := entries[1..];
      }
      entries := entries + [entry];
      total := total + 1;
      log := log + [entry];
    }

    method GetLogsSince(since: nat) returns (next: nat, batch: seq<T>)
      requires Valid()
      ensures next == |log| && batch == Batch(Value(), since)
      ensures |log| - 1000 <= since <= |log| ==> batch == log[since..]
      ensures since < |log| - 1000 ==> batch == log[|log| - 1000..]
      ensures |log| <= since ==> batch == []
    {
      BatchExact(Value(), log, since);
      next := total;
      batch := entries[BatchSkip(total, |entries|, since)..];
    }

    method Clear()
      modifies this
      ensures Valid() && log == []
    {
      entries, total, log := [], 0, [];
    }
  }

  // ---------------------------------------------------------------- a pulling client

  datatype Event<T> = Logged(entry: T) | Pulled | Cleared

  /** The ring, the log since the last clear, and a client that feeds back the
      offsets it was given and does not hear of clears. `received` is what it got
      since the last clear; `pulled` whether it has pulled since, `from` where that
      first pull began, and `behind` whether one came over 1000 lines late. */
  datatype Session<T> =
    Session(ring: Ring<T>, log: seq<T>, offset: nat, received: seq<T>, pulled: bool, from: nat, behind: bool)

  function Next<T>(s: Session<T>, event: Event<T>): Session<T> {
    match event
    case Logged(entry) => s.(ring := Push(s.ring, entry), log := s.log + [entry])
    case Pulled =>
      s.(offset := s.ring.total, received := s.received + Batch(s.ring, s.offset), pulled := true,
         from := if s.pulled then s.from else Min(s.offset, s.ring.total),
         behind := s.behind || s.ring.total > s.offset + MAX_UI_LOGS)
    case Cleared => s.(ring := Ring([], 0), log := [], received := [], pulled := false, behind := false)
  }

  function After<T>(events: seq<Event<T>>): Session<T> {
    if events == [] then Session(Ring([], 0), [], 0, [], true, 0, false)
    else Next(After(events[..|events| - 1]), events[|events| - 1])
  }

  ghost predicate InStep<T>(s: Session<T>) {
    && Refines(s.ring, s.log)
    && (!s.pulled ==> s.received == [] && !s.behind)
    && (s.pulled ==>
          && s.from <= s.offset <= |s.log| && |s.received| <= s.offset - s.from
          && (s.received == s.log[s.from..s.offset] <==> !s.behind)
          && (s.behind <==> |s.received| < s.offset - s.from))
  }

  // What has been received stays short of a gap, and has none only when the new lines follow on.
  lemma GapStays<T>(log: seq<T>, received: seq<T>, from: nat, offset: nat, start: nat)
    requires from <= offset <= start <= |log| && |received| <= offset - from
    requires received == log[from..offset] <==> |received| == offset - from
    ensures
      var after := received + log[start..];
      && (after == log[from..|log|] <==> |received| == offset - from && start == offset)
      && (|after| == |log| - from <==> |received| == offset - from && start == offset)
  {
    assert log[from..offset] + log[offset..] == log[from..|log|];
    assert |log[from..|log|]| == |log| - from;
  }

  lemma PullInStep<T>(s: Session<T>)
    requires InStep(s)
    ensures InStep(Next(s, Pulled))
  {
    BatchExact(s.ring, s.log, s.offset);
    var oldest := SaturatingSub(|s.log|, MAX_UI_LOGS);
    var start := Min(if s.offset < oldest then oldest else s.offset, |s.log|);
    var offset := Min(s.offset, |s.log|);
    assert start == offset <==> |s.log| <= s.offset + MAX_UI_LOGS;
    if s.pulled {
      GapStays(s.log, s.received, s.from, offset, start);
    } else {
      GapStays(s.log, [], offset, offset, start);
      assert [] + s.log[start..] == s.log[start..];
    }
  }

  lemma LogInStep<T>(s: Session<T>, entry: T)
    requires InStep(s)
    ensures InStep(Next(s, Logged(entry)))
  {
    if s.pulled {
      assert (s.log + [entry])[s.from..s.offset] == s.log[s.from..s.offset];
    }
  }

  lemma {:induction false} RunInStep<T>(events: seq<Event<T>>)
    ensures InStep(After(events))
  {
    if events != [] {
      var s := After(events[..|events| - 1]);
      RunInStep(events[..|events| - 1]);
      match events[|events| - 1]
      case Logged(entry) => LogInStep(s, entry);
      case Pulled => PullInStep(s);
      case Cleared =>
    }
  }

  /** Over any run of lines, pulls and clears, a client that has pulled since the
      last clear has the log since then up to its offset, with no gap and no repeat,
      exactly when no pull came over 1000 lines late and the first one began at the
      start; a gap is never filled later. */
  lemma PullsConcatenate<T>(events: seq<Event<T>>)
    ensures var s := After(events);
      s.pulled ==> s.offset <= |s.log| && (s.received == s.log[..s.offset] <==> !s.behind && s.from == 0)
  {
    RunInStep(events);
  }

  lemma SkipsNone(total: nat, len: nat, since: nat)
    requires len <= total
    ensures BatchSkip(total, len, 0) == 0
    ensures BatchSkip(total, len, since) == 0 <==> len == 0 || since <= total - len
  {
  }

  lemma Retained<T>(ring: Ring<T>, log: seq<T>)
    requires Refines(ring, log)
    ensures |ring.entries| == Min(ring.total, MAX_UI_LOGS) && ring.total == |log|
  {
  }

  lemma TailsAgree<T>(s: seq<T>, a: nat, b: nat)
    requires a <= |s| && b <= |s|
    ensures s[a..] == s[b..] <==> a == b
  {
    assert |s[a..]| == |s| - a && |s[b..]| == |s| - b;
  }

  /** Clearing restarts the offsets, and clients are not told: an offset from
      before skips lines that took its place. A pull from it misses none of what
      the ring still has exactly when there are none or the offset is no later
      than the oldest. */
  lemma StaleOffsetAfterClear<T>(ring: Ring<T>, log: seq<T>, stale: nat)
    requires Refines(ring, log)
    ensures Batch(ring, stale) == Batch(ring, 0) <==> log == [] || stale <= SaturatingSub(|log|, MAX_UI_LOGS)
  {
    var len := |ring.entries|;
    Retained(ring, log);
    SkipsNone(ring.total, len, stale);
    TailsAgree(ring.entries, BatchSkip(ring.total, len, stale), BatchSkip(ring.total, len, 0));
  }

  // -------------------------------------------------------------------- the channel

  /** What travels to the writer thread: a line, or the marker that reports how
      many were dropped. */
  datatype Message<T> = Entry(entry: T) | Marker(dropped: nat)

  /** The bounded channel and the counter of dropped lines. `settling` is a
      sender between its line and the marker; senders exclude each other, the
      writer thread does not wait for them. `offered` is every line sent. */
  datatype Channel<T> = Channel(queue: seq<Message<T>>, capacity: nat, dropped: nat, settling: bool,
                                taken: seq<Message<T>>, offered: seq<T>)

  datatype ChannelStep<T> = Offer(entry: T) | Settle | Take

  function ChannelNext<T>(c: Channel<T>, step: ChannelStep<T>): Channel<T> {
    match step
    case Offer(entry) =>
      if c.settling then c
      else if |c.queue| < c.capacity then
        c.(queue := c.queue + [Entry(entry)], settling := true, offered := c.offered + [entry])
      else c.(dropped := c.dropped + 1, offered := c.offered + [entry])
    case Settle =>
      if !c.settling then c
      else if c.dropped > 0 && |c.queue| < c.capacity then
        c.(queue := c.queue + [Marker(c.dropped)], dropped := 0, settling := false)
      else c.(settling := false)
    case Take =>
      if c.queue == [] then c
      else c.(queue := c.queue[1..], taken := c.taken + [c.queue[0]])
  }

  function ChannelAfter<T>(capacity: nat, steps: seq<ChannelStep<T>>): Channel<T> {
    if steps == [] then Channel([], capacity, 0, false, [], [])
    else ChannelNext(ChannelAfter(capacity, steps[..|steps| - 1]), steps[|steps| - 1])
  }

  function Entries<T>(messages: seq<Message<T>>): seq<T> {
    if messages == [] then []
    else Entries(messages[..|messages| - 1])
         + match messages[|messages| - 1] case Entry(entry) => [entry] case Marker(_) => []
  }

  function Reported<T>(messages: seq<Message<T>>): nat {
    if messages == [] then 0
    else Reported(messages[..|messages| - 1])
         + match messages[|messages| - 1] case Entry(_) => 0 case Marker(n) => n
  }

  /** `part` is `whole` with some elements left out. */
  predicate Subsequence<T(==)>(part: seq<T>, whole: seq<T>)
    decreases |whole|
  {
    if part == [] then true
    else if whole == [] then false
    else if part[|part| - 1] == whole[|whole| - 1] && Subsequence(part[..|part| - 1], whole[..|whole| - 1]) then true
    else Subsequence(part, whole[..|whole| - 1])
  }

  lemma MessageSnoc<T>(messages: seq<Message<T>>, m: Message<T>)
    ensures Entries(messages + [m])
         == Entries(messages) + match m case Entry(entry) => [entry] case Marker(_) => []
    ensures Reported(messages + [m]) == Reported(messages) + match m case Entry(_) => 0 case Marker(n) => n
  {
    assert (messages + [m])[..|messages|] == messages;
  }

  lemma SubsequenceSnoc<T>(part: seq<T>, whole: seq<T>, x: T)
    requires Subsequence(part, whole)
    ensures Subsequence(part, whole + [x]) && Subsequence(part + [x], whole + [x])
  {
    assert (whole + [x])[..|whole|] == whole && (part + [x])[..|part|] == part;
  }

  ghost predicate Accounted<T>(c: Channel<T>) {
    var sent := c.taken + c.queue;
    && |c.queue| <= c.capacity
    && Subsequence(Entries(sent), c.offered)
    && |c.offered| == |Entries(sent)| + Reported(sent) + c.dropped
  }

  lemma OfferAccounted<T>(c: Channel<T>, entry: T)
    requires Accounted(c)
    ensures Accounted(ChannelNext(c, Offer(entry)))
  {
    var sent, n := c.taken + c.queue, ChannelNext(c, Offer(entry));
    SubsequenceSnoc(Entries(sent), c.offered, entry);
    MessageSnoc(sent, Entry(entry));
    assert n.queue == c.queue || n.taken + n.queue == sent + [Entry(entry)];
  }

  lemma SettleAccounted<T>(c: Channel<T>)
    requires Accounted(c)
    ensures Accounted(ChannelNext(c, Settle))
  {
    var sent, n := c.taken + c.queue, ChannelNext(c, Settle);
    MessageSnoc(sent, Marker(c.dropped));
    assert Entries(sent) + [] == Entries(sent);
    assert n.queue == c.queue || n.taken + n.queue == sent + [Marker(c.dropped)];
  }

  lemma TakeAccounted<T>(c: Channel<T>)
    requires Accounted(c)
    ensures Accounted(ChannelNext(c, Take))
  {
    var n := ChannelNext(c, Take);
    assert n.taken + n.queue == c.taken + c.queue;
  }

  /** No line is lost without being counted: over any interleaving of senders and
      the writer, the lines sent on are the offered ones in order, and those left
      out are exactly what the markers report and the counter still holds. */
  lemma {:induction false} DroppedLinesAreCounted<T>(capacity: nat, steps: seq<ChannelStep<T>>)
    ensures Accounted(ChannelAfter(capacity, steps)) && ChannelAfter(capacity, steps).capacity == capacity
  {
    if steps != [] {
      DroppedLinesAreCounted(capacity, steps[..|steps| - 1]);
      var c := ChannelAfter(capacity, steps[..|steps| - 1]);
      match steps[|steps| - 1]
      case Offer(entry) => OfferAccounted(c, entry);
      case Settle => SettleAccounted(c);
      case Take => TakeAccounted(c);
    }
  }

  /** The lines that senders offered: one at a time, each with its turn to report. */
  function OfferedLines<T>(capacity: nat, steps: seq<ChannelStep<T>>): seq<T> {
    if steps == [] then []
    else
      var front, last := steps[..|steps| - 1], steps[|steps| - 1];
      OfferedLines(capacity, front)
      + if last.Offer? && !ChannelAfter(capacity, front).settling then [last.entry] else []
  }

  /** How many of them found the queue full. */
  function FoundFull<T>(capacity: nat, steps: seq<ChannelStep<T>>): nat {
    if steps == [] then 0
    else
      var front, last := steps[..|steps| - 1], steps[|steps| - 1];
      var c := ChannelAfter(capacity, front);
      FoundFull(capacity, front) + if last.Offer? && !c.settling && |c.queue| >= capacity then 1 else 0
  }

  lemma StepCounts<T>(c: Channel<T>, step: ChannelStep<T>)
    ensures var n := ChannelNext(c, step);
      |Entries(n.taken + n.queue)| == |Entries(c.taken + c.queue)|
        + if step.Offer? && !c.settling && |c.queue| < c.capacity then 1 else 0
  {
    var sent, n := c.taken + c.queue, ChannelNext(c, step);
    match step
    case Offer(entry) =>
      MessageSnoc(sent, Entry(entry));
      assert n.queue == c.queue || n.taken + n.queue == sent + [Entry(entry)];
    case Settle =>
      MessageSnoc(sent, Marker(c.dropped));
      assert n.queue == c.queue || n.taken + n.queue == sent + [Marker(c.dropped)];
    case Take =>
      assert n.taken + n.queue == sent;
  }

  lemma {:induction false} OffersCounted<T>(capacity: nat, steps: seq<ChannelStep<T>>)
    ensures var c := ChannelAfter(capacity, steps);
      && c.offered == OfferedLines(capacity, steps)
      && |Entries(c.taken + c.queue)| + FoundFull(capacity, steps) == |c.offered|
  {
    if steps != [] {
      var front := steps[..|steps| - 1];
      OffersCounted(capacity, front);
      DroppedLinesAreCounted(capacity, front);
      StepCounts(ChannelAfter(capacity, front), steps[|steps| - 1]);
    }
  }

  lemma {:induction false} WholeSubsequence<T>(part: seq<T>, whole: seq<T>)
    requires Subsequence(part, whole)
    ensures |part| <= |whole| && (|part| == |whole| <==> part == whole)
    decreases |whole|
  {
    if part != [] {
      var p, w := part[..|part| - 1], whole[..|whole| - 1];
      assert part == p + [part[|part| - 1]] && whole == w + [whole[|whole| - 1]];
      if Subsequence(p, w) { WholeSubsequence(p, w); }
      if Subsequence(part, w) { WholeSubsequence(part, w); }
    }
  }

  /** The lines sent on are all that were offered, in order, exactly when none of them found the queue full: one that
      finds room is never dropped. */
  lemma AllSentExactly<T>(capacity: nat, steps: seq<ChannelStep<T>>)
    ensures var c := ChannelAfter(capacity, steps);
      Entries(c.taken + c.queue) == OfferedLines(capacity, steps) <==> FoundFull(capacity, steps) == 0
  {
    var c := ChannelAfter(capacity, steps);
    OffersCounted(capacity, steps);
    DroppedLinesAreCounted(capacity, steps);
    WholeSubsequence(Entries(c.taken + c.queue), c.offered);
  }

  /** A sender whose line went in reports all that were dropped before, in one marker, when there is room for it. */
  lemma RoomReports<T>(c: Channel<T>)
    requires c.settling && |c.queue| < c.capacity
    ensures var n := ChannelNext(c, Settle);
      && n.dropped == 0 && n.taken == c.taken && !n.settling
      && Reported(n.taken + n.queue) == Reported(c.taken + c.queue) + c.dropped
      && |n.queue| <= |c.queue| + 1
  {
    var sent := c.taken + c.queue;
    MessageSnoc(sent, Marker(c.dropped));
    assert c.taken + (c.queue + [Marker(c.dropped)]) == sent + [Marker(c.dropped)];
  }
}
