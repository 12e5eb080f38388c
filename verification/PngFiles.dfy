/** PNG files as section 5.3 of the W3C PNG Specification has them written, and that the scan reads them so: a writer of
    its own, with big-endian lengths, against the walk and the choice of module PngScan. */
module PngFiles {
  import opened Wrappers
  import opened Bytes
  import opened PngScan

  // ------------------------------------------------------------------------ the writer

  /** The number that four bytes stand for, the first counting most. */
  predicate BigEndian(s: seq<byte>, n: nat) {
    |s| == 4 && 0x100_0000 * (s[0] as int) + 0x1_0000 * (s[1] as int) + 0x100 * (s[2] as int) + s[3] == n
  }

  /** A chunk as it is written. */
  datatype Piece = Piece(length: seq<byte>, kind: seq<byte>, data: seq<byte>, checksum: seq<byte>)

  predicate IsPiece(p: Piece) {
    BigEndian(p.length, |p.data|) && |p.kind| == 4 && |p.checksum| == 4
  }

  function Chunked(p: Piece): seq<byte> {
    p.length + p.kind + p.data + p.checksum
  }

  function AllChunked(pieces: seq<Piece>): seq<byte> {
    if pieces == [] then [] else Chunked(pieces[0]) + AllChunked(pieces[1..])
  }

  /** The chunks of a file: the last one and no other is the end chunk. */
  predicate Ends(pieces: seq<Piece>) {
    && pieces != [] && IsPiece(pieces[0])
    && if |pieces| == 1 then pieces[0].kind == [73, 69, 78, 68]
       else pieces[0].kind != [73, 69, 78, 68] && Ends(pieces[1..])
  }

  /** And the first one is a header with width and height. */
  predicate IsFile(pieces: seq<Piece>, width: u32, height: u32) {
    && Ends(pieces) && |pieces| >= 2
    && pieces[0].kind == [73, 72, 68, 82] && |pieces[0].data| >= 8
    && BigEndian(pieces[0].data[..4], width) && BigEndian(pieces[0].data[4..8], height)
  }

  predicate IsStart(start: seq<byte>) {
    start == [137, 80, 78, 71, 13, 10, 26, 10]
  }

  function File(start: seq<byte>, pieces: seq<Piece>): seq<byte> {
    start + AllChunked(pieces)
  }

  // ------------------------------------------------------------------------ what is read

  lemma ReadsBack(bytes: seq<byte>, at: nat, s: seq<byte>, n: u32)
    requires at + 4 <= |bytes| && bytes[at..at + 4] == s && BigEndian(s, n)
    ensures U32(bytes, at) == n
  {
    Read4Weighs(s);
  }

  // `part` is what stands at a place.
  ghost predicate StandsAt(bytes: seq<byte>, at: nat, part: seq<byte>) {
    at + |part| <= |bytes| && bytes[at..at + |part|] == part
  }

  lemma BothStand(bytes: seq<byte>, at: nat, a: seq<byte>, b: seq<byte>)
    requires StandsAt(bytes, at, a + b)
    ensures StandsAt(bytes, at, a) && StandsAt(bytes, at + |a|, b)
  {
    SliceOfSlice(bytes, at, at + |a + b|, 0, |a|);
    SliceOfSlice(bytes, at, at + |a + b|, |a|, |a| + |b|);
    assert (a + b)[0..|a|] == a && (a + b)[|a|..|a| + |b|] == b;
  }

  lemma ChunkFound(bytes: seq<byte>, at: nat, p: Piece)
    requires IsPiece(p) && StandsAt(bytes, at, Chunked(p))
    ensures ChunkAt(bytes, at) == Some(Chunk(at + |Chunked(p)|, p.kind == [73, 69, 78, 68]))
  {
    SliceOfSlice(bytes, at, at + 12 + |p.data|, 0, 4);
    SliceOfSlice(bytes, at, at + 12 + |p.data|, 4, 8);
    assert Chunked(p)[0..4] == p.length && Chunked(p)[4..8] == p.kind;
    ReadsBack(bytes, at, p.length, |p.data|);
  }

  /** The walk over written chunks ends at their last byte, whatever is around them. */
  lemma {:induction false} WalkEnds(bytes: seq<byte>, at: nat, pieces: seq<Piece>)
    requires Ends(pieces) && StandsAt(bytes, at, AllChunked(pieces))
    ensures EndFrom(bytes, at) == Some(at + |AllChunked(pieces)|)
    decreases |pieces|
  {
    var first, rest := pieces[0], pieces[1..];
    BothStand(bytes, at, Chunked(first), AllChunked(rest));
    ChunkFound(bytes, at, first);
    if |pieces| > 1 {
      WalkEnds(bytes, at + |Chunked(first)|, rest);
    }
  }

  lemma HeaderSlices(a: seq<byte>, b: seq<byte>, c: seq<byte>, d: seq<byte>, e: seq<byte>, rest: seq<byte>)
    requires |a| == 8 && |b| == |c| == |d| == |e| == 4
    ensures var all := a + (b + (c + (d + (e + rest)))); all[12..16] == c && all[16..20] == d && all[20..24] == e
  {
    var all := a + (b + (c + (d + (e + rest))));
    assert all == a + b + (c + (d + (e + rest)));
    assert all == a + b + c + (d + (e + rest));
    assert all == a + b + c + d + (e + rest);
    assert all == a + b + c + d + e + rest;
  }

  lemma Joins(a: seq<byte>, b: seq<byte>, data: seq<byte>, c: seq<byte>, d: seq<byte>)
    requires |data| >= 8
    ensures a + b + data + c + d == a + (b + (data[..4] + (data[4..8] + (data[8..] + c + d))))
  {
    assert data == data[..4] + data[4..8] + data[8..];
  }

  lemma HeadOf(pieces: seq<Piece>, width: u32, height: u32) returns (rest: seq<byte>)
    requires IsFile(pieces, width, height)
    ensures var p := pieces[0];
      IsPiece(p) && AllChunked(pieces) == p.length + (p.kind + (p.data[..4] + (p.data[4..8] + rest)))
  {
    var p := pieces[0];
    var tail := AllChunked(pieces[1..]);
    rest := p.data[8..] + p.checksum + tail;
    Joins(p.length, p.kind, p.data, p.checksum, tail);
  }

  /** The header of a written file is read as the width and height it was given. */
  lemma DimensionsRead(start: seq<byte>, pieces: seq<Piece>, width: u32, height: u32)
    requires |start| == 8 && IsFile(pieces, width, height)
    ensures Dimensions(File(start, pieces)) == Some((width, height))
  {
    var p := pieces[0];
    var rest := HeadOf(pieces, width, height);
    HeaderSlices(start, p.length, p.kind, p.data[..4], p.data[4..8], rest);
    ReadsBack(File(start, pieces), 16, p.data[..4], width);
    ReadsBack(File(start, pieces), 20, p.data[4..8], height);
  }

  // ------------------------------------------------------------------------ what is found

  lemma WrittenEnds(bytes: seq<byte>, at: nat, start: seq<byte>, pieces: seq<Piece>)
    requires Ends(pieces) && |start| == 8 && StandsAt(bytes, at, File(start, pieces))
    ensures StandsAt(bytes, at, start) && EndFrom(bytes, at + 8) == Some(at + |File(start, pieces)|)
  {
    BothStand(bytes, at, start, AllChunked(pieces));
    WalkEnds(bytes, at + 8, pieces);
  }

  // What the scan reads of a file that stands at a place.
  ghost predicate Reads(bytes: seq<byte>, at: nat, start: seq<byte>, file: seq<byte>, width: u32, height: u32) {
    && StandsAt(bytes, at, start) && StandsAt(bytes, at, file) && EndFrom(bytes, at + 8) == Some(at + |file|)
    && Dimensions(file) == Some((width, height))
  }

  lemma WrittenIsRead(bytes: seq<byte>, at: nat, start: seq<byte>, pieces: seq<Piece>, width: u32, height: u32)
    requires |start| == 8 && IsFile(pieces, width, height) && StandsAt(bytes, at, File(start, pieces))
    ensures Reads(bytes, at, start, File(start, pieces), width, height)
  {
    WrittenEnds(bytes, at, start, pieces);
    DimensionsRead(start, pieces, width, height);
  }

  // Usable files that start in one place end in one place, after it.
  lemma OneEnd(bytes: seq<byte>, start: nat, a: nat, b: nat)
    requires Usable(bytes, start, a) && Usable(bytes, start, b)
    ensures a == b && start < a <= |bytes| && SignatureAt(bytes, start)
  {
    EndExact(bytes, start + 8, a);
    EndExact(bytes, start + 8, b);
    EndFromTiles(bytes, start + 8);
  }

  function Apart(a: nat, b: nat): nat { if a < b then b - a else a - b }

  lemma UsableWhen(bytes: seq<byte>, at: nat, end: nat, width: u32, height: u32)
    requires SignatureAt(bytes, at) && EndFrom(bytes, at + 8) == Some(end)
    ensures at <= end <= |bytes|
    ensures Dimensions(bytes[at..end]) == Some((width, height)) ==> Usable(bytes, at, end)
  {
    EndFromTiles(bytes, at + 8);
    EndExact(bytes, at + 8, end);
  }

  lemma UsableStarts(bytes: seq<byte>, size: u32, candidates: seq<Candidate>, k: nat)
    requires Scanned(bytes, size, candidates, |bytes|) && k < |candidates|
    ensures var c := candidates[k]; c.start < c.end && SignatureAt(bytes, c.start) && Usable(bytes, c.start, c.end)
  {
    var c := candidates[k];
    assert c in candidates && IsCandidate(bytes, size, c);
    OneEnd(bytes, c.start, c.end, c.end);
  }

  lemma InsideOne(bytes: seq<byte>, at: nat, size: u32, candidates: seq<Candidate>) returns (k: nat)
    requires UsableAt(bytes, at) && at < |bytes| && Scanned(bytes, size, candidates, |bytes|)
    ensures k < |candidates| && candidates[k].start <= at < candidates[k].end
  {
    assert Inside(candidates, at);
    var c :| c in candidates && c.start <= at < c.end;
    k :| k < |candidates| && candidates[k] == c;
  }

  // With no signature before it, it is what the scan finds first.
  lemma {:induction false} FirstIsFound(bytes: seq<byte>, at: nat, end: nat, size: u32, candidates: seq<Candidate>)
    requires Usable(bytes, at, end)
    requires Scanned(bytes, size, candidates, |bytes|) && forall i | 0 <= i < at :: !SignatureAt(bytes, i)
    ensures candidates != [] && candidates[0].start == at && candidates[0].end == end
  {
    OneEnd(bytes, at, end, end);
    var k := InsideOne(bytes, at, size, candidates);
    UsableStarts(bytes, size, candidates, k);
    OneEnd(bytes, at, candidates[k].end, end);
    UsableStarts(bytes, size, candidates, 0);
  }

  lemma FoundFirst(bytes: seq<byte>, at: nat, start: seq<byte>, file: seq<byte>, size: u32, candidates: seq<Candidate>,
                   width: u32, height: u32)
    requires IsStart(start) && Reads(bytes, at, start, file, width, height)
    requires Scanned(bytes, size, candidates, |bytes|) && forall i | 0 <= i < at :: !SignatureAt(bytes, i)
    ensures candidates != []
    ensures candidates[0] == Candidate(Apart(width, size) + Apart(height, size), at, at + |file|)
  {
    UsableWhen(bytes, at, at + |file|, width, height);
    FirstIsFound(bytes, at, at + |file|, size, candidates);
    assert candidates[0] in candidates && IsCandidate(bytes, size, candidates[0]);
  }

  /** A written file among other bytes, with no signature before it, is what the scan finds first, whole, and scored by
      how far its width and its height are from the size that is wanted. */
  lemma WrittenIsFound(bytes: seq<byte>, at: nat, start: seq<byte>, pieces: seq<Piece>, width: u32, height: u32,
                       size: u32, candidates: seq<Candidate>)
    requires IsStart(start) && IsFile(pieces, width, height) && StandsAt(bytes, at, File(start, pieces))
    requires forall i | 0 <= i < at :: !SignatureAt(bytes, i)
    requires Scanned(bytes, size, candidates, |bytes|)
    ensures candidates != []
    ensures candidates[0] == Candidate(Apart(width, size) + Apart(height, size), at, at + |File(start, pieces)|)
  {
    WrittenIsRead(bytes, at, start, pieces, width, height);
    FoundFirst(bytes, at, start, File(start, pieces), size, candidates, width, height);
  }

  /** And with no signature after it either, it is what is decoded for the icon. */
  lemma {:induction false} WrittenIsDecoded<T(!new)>(
    bytes: seq<byte>, at: nat, start: seq<byte>, pieces: seq<Piece>, width: u32, height: u32, size: u32,
    decode: seq<byte> -> Option<T>, candidates: seq<Candidate>, best: Option<T>)
    requires IsStart(start) && IsFile(pieces, width, height) && StandsAt(bytes, at, File(start, pieces))
    requires forall i: nat | i < at || at + |File(start, pieces)| <= i :: !SignatureAt(bytes, i)
    requires Scanned(bytes, size, candidates, |bytes|) && IsBest(bytes, decode, candidates, best)
    ensures best == decode(File(start, pieces))
  {
    WrittenIsFound(bytes, at, start, pieces, width, height, size, candidates);
    var found := candidates[0];
    assert found in candidates && bytes[found.start..found.end] == File(start, pieces);
    if |candidates| > 1 {
      UsableStarts(bytes, size, candidates, 1);
      assert false;
    }
  }
}
