/** Splitting a process's output into lines. What comes out depends on the bytes
    alone, not on how the reads cut them up. */
module OutputLines {
  import opened Wrappers

  /** Bytes kept of a line. */
  const MAX_OUTPUT_LINE: nat := 16 * 1024

  const NEWLINE: byte := 10
  const RETURN: byte := 13

  /** One answer of the pipe. `Data([])` is its end. */
  datatype Read = Data(bytes: seq<byte>) | Interrupted | Failed

  /** A line as it is handed on, before its bytes are turned into text:
      `truncated` is what puts an ellipsis after it. */
  datatype Line = Line(bytes: seq<byte>, truncated: bool)

  // ---------------------------------------------------------------- what is meant

  /** Everything read before the pipe ends or fails. */
  function Stream(feed: seq<Read>): seq<byte> {
    if feed == [] then []
    else match feed[0]
      case Data(bytes) => if bytes == [] then [] else bytes + Stream(feed[1..])
      case Interrupted => Stream(feed[1..])
      case Failed => []
  }

  /** The bytes of each line ended by a newline, and of the unended rest. */
  datatype Split = Split(ended: seq<seq<byte>>, rest: seq<byte>)

  function SplitAt(bytes: seq<byte>): Split {
    if bytes == [] then Split([], [])
    else
      var last := |bytes| - 1;
      var s := SplitAt(bytes[..last]);
      if bytes[last] == NEWLINE then Split(s.ended + [s.rest], [])
      else Split(s.ended, s.rest + [bytes[last]])
  }

  function JoinedEnded(ended: seq<seq<byte>>): seq<byte> {
    if ended == [] then [] else JoinedEnded(ended[..|ended| - 1]) + ended[|ended| - 1] + [NEWLINE]
  }

  /** The bytes a split came from. */
  function Joined(s: Split): seq<byte> {
    JoinedEnded(s.ended) + s.rest
  }

  /** What is kept of a line: its first bytes without one trailing return, and
      whether any were dropped. */
  function Kept(line: seq<byte>): Line {
    var kept := line[..Min(|line|, MAX_OUTPUT_LINE)];
    Line(StripReturn(kept), |line| > MAX_OUTPUT_LINE)
  }

  function StripReturn(bytes: seq<byte>): seq<byte> {
    if bytes != [] && bytes[|bytes| - 1] == RETURN then bytes[..|bytes| - 1] else bytes
  }

  function KeptAll(lines: seq<seq<byte>>): seq<Line> {
    seq(|lines|, i requires 0 <= i < |lines| => Kept(lines[i]))
  }

  /** The lines of a stream: every ended one, and the rest unless it is empty. */
  function LinesOf(bytes: seq<byte>): seq<Line> {
    var s := SplitAt(bytes);
    KeptAll(s.ended) + if s.rest == [] then [] else [Kept(s.rest)]
  }

  /** What is handed on for the bytes of one line: the first 16384 of them or all, but for a carriage return that these
      end in, and whether there were more. */
  ghost predicate HandedOn(bytes: seq<byte>, line: Line) {
    var held := if |bytes| <= 16384 then |bytes| else 16384;
    && line.bytes <= bytes && (line.truncated <==> |bytes| > 16384)
    && |line.bytes| == if held > 0 && bytes[held - 1] == 13 then held - 1 else held
  }

  /** One is handed on for each line ended by a newline, in order, and one for the rest when there is any. */
  ghost predicate AllHandedOn(bytes: seq<byte>, lines: seq<Line>) {
    var s := SplitAt(bytes);
    && |lines| == |s.ended| + (if s.rest == [] then 0 else 1)
    && (forall i | 0 <= i < |s.ended| :: HandedOn(s.ended[i], lines[i]))
    && (s.rest != [] ==> HandedOn(s.rest, lines[|s.ended|]))
  }

  lemma KeptHandedOn(bytes: seq<byte>)
    ensures HandedOn(bytes, Kept(bytes))
  {
  }

  lemma LinesHandedOn(bytes: seq<byte>)
    ensures AllHandedOn(bytes, LinesOf(bytes))
  {
    var s := SplitAt(bytes);
    forall i | 0 <= i < |s.ended|
      ensures HandedOn(s.ended[i], LinesOf(bytes)[i])
    {
      KeptHandedOn(s.ended[i]);
    }
    KeptHandedOn(s.rest);
  }

  // Two lines handed on for the same bytes are the same.
  lemma HandedOnOnce(bytes: seq<byte>, a: Line, b: Line)
    requires HandedOn(bytes, a) && HandedOn(bytes, b)
    ensures a == b
  {
    assert a.bytes == bytes[..|a.bytes|] && b.bytes == bytes[..|b.bytes|];
  }

  // -------------------------------------------------------------------- the reader

  function Position(bytes: seq<byte>): (p: Option<nat>)
    ensures p.None? ==> NEWLINE !in bytes
    ensures p.Some? ==> p.value < |bytes| && bytes[p.value] == NEWLINE && NEWLINE !in bytes[..p.value]
  {
    if bytes == [] then None
    else if bytes[0] == NEWLINE then Some(0)
    else
      match Position(bytes[1..])
      case None => assert bytes == [bytes[0]] + bytes[1..]; None
      case Some(p) => assert bytes[..p + 1] == [bytes[0]] + bytes[1..][..p]; Some(p + 1)
  }

  /** A buffered reader: `unread` is what is left of the last read. */
  class BufReader {
    const feed: seq<Read>
    var next: nat
    var unread: seq<byte>

    ghost predicate Valid() reads this { next <= |feed| }

    /** What is still to come. */
    ghost function Remaining(): seq<byte>
      reads this
      requires Valid()
    {
      unread + Stream(feed[next..])
    }

    constructor (feed: seq<Read>)
      ensures Valid() && Remaining() == Stream(feed)
    {
      this.feed, next, unread := feed, 0, [];
      new;
      assert this.feed[0..] == feed;
    }

    /** The unread bytes, reading on when there are none. */
    method FillBuf() returns (chunk: Read)
      requires Valid()
      modifies this
      ensures Valid() && next >= old(next)
      ensures chunk.Failed? ==> old(Remaining()) == []
      ensures chunk.Data? ==> chunk.bytes == unread
      ensures chunk.Data? && chunk.bytes != [] ==> Remaining() == old(Remaining())
      ensures chunk == Data([]) ==> old(Remaining()) == []
      ensures chunk.Interrupted? ==> Remaining() == old(Remaining()) && next > old(next)
      ensures chunk.Data? && next == old(next) ==> unread == old(unread)
    {
      if unread != [] { return Data(unread); }
      if next == |feed| { return Data([]); }
      chunk := feed[next];
      next := next + 1;
      if chunk.Data? { unread := chunk.bytes; }
    }

    method Consume(n: nat)
      requires Valid() && n <= |unread|
      modifies this`unread
      ensures Valid() && unread == old(unread[n..])
      ensures old(Remaining()) == old(unread[..n]) + Remaining()
    {
      unread := unread[n..];
    }
  }

  /** Reads lines until the pipe ends or fails. `peak` is the most bytes the line
      buffer ever held. */
  method ForEachOutputLine(reader: BufReader) returns (lines: seq<Line>, ghost peak: nat)
    requires reader.Valid()
    modifies reader
    ensures lines == LinesOf(old(reader.Remaining()))
    ensures AllHandedOn(old(reader.Remaining()), lines)
    ensures peak <= MAX_OUTPUT_LINE
  {
    lines, peak := [], 0;
    var line: seq<byte> := [];
    var truncated := false;
    ghost var done: seq<byte> := [];  // the bytes handled so far
    while true
      invariant reader.Valid()
      invariant done + reader.Remaining() == old(reader.Remaining())
      invariant Reading(done, line, truncated, lines)
      invariant peak <= MAX_OUTPUT_LINE
      decreases |reader.feed| - reader.next, |reader.unread|
    {
      var answer := reader.FillBuf();
      if answer.Interrupted? { continue; }
      if answer.Failed? || answer.bytes == [] { break; }
      var chunk, consumed := answer.bytes, 0;
      consumed, line, truncated, lines := TakeChunk(chunk, line, truncated, lines, done);
      if |line| > peak { peak := |line|; }
      reader.Consume(consumed);
      done := done + chunk[..consumed];
    }
    assert done == old(reader.Remaining());
    LinesHandedOn(done);
    if line != [] {
      lines := lines + [Line(StripReturn(line), truncated)];
    }
  }

  /** One turn of the loop: takes a chunk up to its first newline. */
  method TakeChunk(chunk: seq<byte>, line: seq<byte>, truncated: bool, lines: seq<Line>, ghost done: seq<byte>)
    returns (consumed: nat, line': seq<byte>, truncated': bool, lines': seq<Line>)
    requires chunk != [] && Reading(done, line, truncated, lines)
    ensures 0 < consumed <= |chunk| && |line'| <= MAX_OUTPUT_LINE
    ensures Reading(done + chunk[..consumed], line', truncated', lines')
  {
    var newline := Position(chunk);
    var take := if newline.Some? then newline.value else |chunk|;
    Absorbed(done, line, truncated, lines, chunk);
    var room := MAX_OUTPUT_LINE - |line|;
    line' := line + chunk[..Min(take, room)];
    truncated' := truncated || take > room;
    lines' := lines;
    consumed := take + if newline.Some? then 1 else 0;
    if newline.Some? {
      lines' := lines' + [Line(StripReturn(line'), truncated')];
      line', truncated' := [], false;
    }
  }

  /** The loop's state once `done` has been handled. */
  ghost predicate Reading(done: seq<byte>, line: seq<byte>, truncated: bool, lines: seq<Line>) {
    var s := SplitAt(done);
    && lines == KeptAll(s.ended)
    && line == s.rest[..Min(|s.rest|, MAX_OUTPUT_LINE)]
    && truncated == (|s.rest| > MAX_OUTPUT_LINE)
  }

  lemma ReadPiece(done: seq<byte>, line: seq<byte>, truncated: bool, lines: seq<Line>, piece: seq<byte>)
    requires Reading(done, line, truncated, lines) && NEWLINE !in piece
    ensures |line| <= MAX_OUTPUT_LINE
    ensures var room := MAX_OUTPUT_LINE - |line|;
            Reading(done + piece, line + piece[..Min(|piece|, room)], truncated || |piece| > room, lines)
  {
    SplitPlain(done, piece);
    var rest := SplitAt(done).rest;
    var all := rest + piece;
    var room := MAX_OUTPUT_LINE - |line|;
    assert all[..Min(|all|, MAX_OUTPUT_LINE)] == line + piece[..Min(|piece|, room)];
  }

  /** What one turn of the loop makes of a chunk. */
  lemma Absorbed(done: seq<byte>, line: seq<byte>, truncated: bool, lines: seq<Line>, chunk: seq<byte>)
    requires Reading(done, line, truncated, lines)
    ensures |line| <= MAX_OUTPUT_LINE
    ensures var newline := Position(chunk);
            var take := if newline.Some? then newline.value else |chunk|;
            var room := MAX_OUTPUT_LINE - |line|;
            var line' := line + chunk[..Min(take, room)];
            var truncated' := truncated || take > room;
            && |line'| <= MAX_OUTPUT_LINE
            && if newline.Some?
               then Reading(done + chunk[..take + 1], [], false, lines + [Line(StripReturn(line'), truncated')])
               else Reading(done + chunk[..take + 0], line', truncated', lines)
  {
    var newline := Position(chunk);
    var take := if newline.Some? then newline.value else |chunk|;
    var piece := chunk[..take];
    ReadPiece(done, line, truncated, lines, piece);
    var room := MAX_OUTPUT_LINE - |line|;
    assert piece[..Min(take, room)] == chunk[..Min(take, room)];
    if newline.Some? {
      assert chunk[..take + 1] == piece + [NEWLINE];
      Snoc(done, piece, NEWLINE);
    }
  }

  lemma Snoc(a: seq<byte>, front: seq<byte>, b: byte)
    ensures a + front + [b] == a + (front + [b])
  {
  }

  /** Bytes without a newline lengthen the rest. */
  lemma {:induction false} SplitPlain(done: seq<byte>, piece: seq<byte>)
    requires NEWLINE !in piece
    ensures SplitAt(done + piece) == Split(SplitAt(done).ended, SplitAt(done).rest + piece)
  {
    if piece == [] {
      assert done + piece == done;
    } else {
      var front, last := piece[..|piece| - 1], piece[|piece| - 1];
      assert piece == front + [last];
      var s := SplitAt(done);
      SplitPlain(done, front);
      Snoc(done, front, last);
      Snoc(s.rest, front, last);
    }
  }

  // ------------------------------------------------------------ what the split means

  /** Joining the lines gives the bytes back, and no line holds a newline. */
  lemma {:induction false} SplitJoins(bytes: seq<byte>)
    ensures Joined(SplitAt(bytes)) == bytes && NEWLINE !in SplitAt(bytes).rest
    ensures forall line | line in SplitAt(bytes).ended :: NEWLINE !in line
  {
    if bytes != [] {
      var s := SplitAt(bytes[..|bytes| - 1]);
      SplitJoins(bytes[..|bytes| - 1]);
      assert (s.ended + [s.rest])[..|s.ended|] == s.ended;
      assert bytes == bytes[..|bytes| - 1] + [bytes[|bytes| - 1]];
    }
  }

  /** The split is the only one into newline-free lines that joins to the bytes. */
  lemma SplitUnique(bytes: seq<byte>, s: Split)
    requires Joined(s) == bytes && NEWLINE !in s.rest
    requires forall line | line in s.ended :: NEWLINE !in line
    ensures s == SplitAt(bytes)
  {
    SplitPlain(JoinedEnded(s.ended), s.rest);
    SplitUniqueEnded(s.ended);
  }

  lemma {:induction false} SplitUniqueEnded(ended: seq<seq<byte>>)
    requires forall line | line in ended :: NEWLINE !in line
    ensures SplitAt(JoinedEnded(ended)) == Split(ended, [])
  {
    if ended != [] {
      var front, last := ended[..|ended| - 1], ended[|ended| - 1];
      assert last in ended;
      SplitUniqueEnded(front);
      SplitPlain(JoinedEnded(front), last);
      assert ended == front + [last];
      assert [] + last == last;
    }
  }

  // ------------------------------------------------------------------ what a program wrote

  /** A line as a program writes it, ended by a newline or by a return and a newline. */
  datatype Text = Text(bytes: seq<byte>, crlf: bool)

  function Written(texts: seq<Text>): seq<byte> {
    if texts == [] then []
    else
      var last := texts[|texts| - 1];
      Written(texts[..|texts| - 1]) + last.bytes + if last.crlf then [13, 10] else [10]
  }

  // At most 16383 bytes without a newline, not ending in a return.
  predicate IsText(text: Text) {
    |text.bytes| <= 16383 && 10 !in text.bytes && (text.bytes != [] ==> text.bytes[|text.bytes| - 1] != 13)
  }

  // The bytes before a line's newline.
  function Ended(text: Text): seq<byte> {
    text.bytes + if text.crlf then [13] else []
  }

  function AllEnded(texts: seq<Text>): seq<seq<byte>> {
    seq(|texts|, i requires 0 <= i < |texts| => Ended(texts[i]))
  }

  lemma WrittenOne(front: seq<byte>, text: Text)
    ensures front + text.bytes + (if text.crlf then [13, 10] else [10]) == front + Ended(text) + [10]
  {
  }

  lemma {:induction false} WrittenJoins(texts: seq<Text>)
    ensures Written(texts) == JoinedEnded(AllEnded(texts))
  {
    if texts != [] {
      var front, last := texts[..|texts| - 1], texts[|texts| - 1];
      WrittenJoins(front);
      WrittenOne(Written(front), last);
      assert AllEnded(texts)[..|texts| - 1] == AllEnded(front);
    }
  }

  /** Whatever texts a program writes as lines, ended in either way, they are handed on unchanged and in order. */
  lemma {:induction false} WrittenComesBack(texts: seq<Text>, lines: seq<Line>)
    requires (forall t | t in texts :: IsText(t)) && AllHandedOn(Written(texts), lines)
    ensures |lines| == |texts| && forall i | 0 <= i < |texts| :: lines[i] == Line(texts[i].bytes, false)
  {
    WrittenJoins(texts);
    forall line | line in AllEnded(texts)
      ensures NEWLINE !in line
    {
      var i :| 0 <= i < |texts| && line == Ended(texts[i]);
      assert texts[i] in texts;
    }
    SplitUniqueEnded(AllEnded(texts));
    forall i | 0 <= i < |texts|
      ensures lines[i] == Line(texts[i].bytes, false)
    {
      assert texts[i] in texts;
      HandedOnOnce(Ended(texts[i]), lines[i], Line(texts[i].bytes, false));
    }
  }

  lemma {:induction false} StreamAfter(before: seq<Read>, a: seq<Read>, b: seq<Read>)
    requires Stream(a) == Stream(b)
    ensures Stream(before + a) == Stream(before + b)
  {
    if before == [] {
      assert before + a == a && before + b == b;
    } else {
      StreamAfter(before[1..], a, b);
      assert (before + a)[1..] == before[1..] + a && (before + b)[1..] == before[1..] + b;
    }
  }

  /** Cutting a read in two, with an interruption between, is not seen in the
      stream, and so not in the lines. */
  lemma CutAnywhere(before: seq<Read>, a: seq<byte>, b: seq<byte>, after: seq<Read>)
    requires a != [] && b != []
    ensures LinesOf(Stream(before + ([Data(a + b)] + after)))
         == LinesOf(Stream(before + ([Data(a), Interrupted, Data(b)] + after)))
  {
    var whole, cut := [Data(a + b)] + after, [Data(a), Interrupted, Data(b)] + after;
    assert whole[1..] == after;
    assert cut[1..][1..][1..] == after && cut[1..][0] == Interrupted && cut[1..][1..][0] == Data(b);
    assert Stream(cut[1..][1..]) == b + Stream(after);
    assert Stream(cut) == a + (b + Stream(after)) == (a + b) + Stream(after);
    StreamAfter(before, whole, cut);
  }
}
