/** Finding the embedded PNG closest to a size: a scan for signatures that walks
    each file's chunks, and a choice among what it found. */
module PngScan {
  import opened Wrappers
  import opened Bytes

  const SIGNATURE: seq<byte> := [0x89, 0x50, 0x4e, 0x47, 0x0d, 0x0a, 0x1a, 0x0a]
  const IEND: seq<byte> := [0x49, 0x45, 0x4e, 0x44]
  const IHDR: seq<byte> := [0x49, 0x48, 0x44, 0x52]

  function U32(bytes: seq<byte>, offset: nat): u32
    requires offset + 4 <= |bytes|
  {
    Read4(Big, bytes[offset..offset + 4])
  }

  // ------------------------------------------------------------- what a PNG file is

  /** A chunk: where it ends and whether it is the end chunk. */
  datatype Chunk = Chunk(end: nat, last: bool)

  /** The whole chunk at `offset`: length, type, data, checksum. */
  function ChunkAt(bytes: seq<byte>, offset: nat): (c: Option<Chunk>)
    ensures c.Some? ==> offset + 12 <= c.value.end <= |bytes|
  {
    if offset + 12 <= |bytes| && offset + 12 + U32(bytes, offset) <= |bytes|
    then Some(Chunk(offset + 12 + U32(bytes, offset), bytes[offset + 4..offset + 8] == IEND))
    else None
  }

  function Chunks(bytes: seq<byte>): nat -> Option<Chunk> {
    (offset: nat) => ChunkAt(bytes, offset)
  }

  /** `cuts` are where the chunks of a file begin, with its end last: they follow
      each other without a gap and only the last is the end chunk. */
  ghost predicate Tiled(chunks: nat -> Option<Chunk>, cuts: seq<nat>) {
    |cuts| >= 2 && forall i | 0 <= i < |cuts| - 1 :: Tile(chunks, cuts, i)
  }

  predicate Tile(chunks: nat -> Option<Chunk>, cuts: seq<nat>, i: nat)
    requires i + 1 < |cuts|
  {
    chunks(cuts[i]) == Some(Chunk(cuts[i + 1], i == |cuts| - 2))
  }

  ghost predicate TiledFrom(chunks: nat -> Option<Chunk>, from: nat, end: nat) {
    exists cuts: seq<nat> :: Tiled(chunks, cuts) && cuts[0] == from && cuts[|cuts| - 1] == end
  }

  /** A file from `start` to `end`: the signature, then chunks up to the end chunk. */
  ghost predicate IsPng(bytes: seq<byte>, start: nat, end: nat) {
    && start + 8 <= |bytes| && bytes[start..start + 8] == SIGNATURE
    && TiledFrom(Chunks(bytes), start + 8, end)
  }

  /** Width and height, when the header chunk comes first. */
  function Dimensions(png: seq<byte>): Option<(u32, u32)> {
    if |png| < 24 || png[12..16] != IHDR then None else Some((U32(png, 16), U32(png, 20)))
  }

  function Distance(a: nat, b: nat): nat { if a < b then b - a else a - b }

  /** How far the image is from a square of side `size`. */
  function SizeScore(width: u32, height: u32, size: u32): nat {
    Distance(width, size) + Distance(height, size)
  }

  // ---------------------------------------------------------------- walking one file

  /** The end of the file whose chunks begin at `offset`. */
  function EndFrom(bytes: seq<byte>, offset: nat): Option<nat>
    decreases |bytes| - offset
  {
    match ChunkAt(bytes, offset)
    case None => None
    case Some(chunk) => if chunk.last then Some(chunk.end) else EndFrom(bytes, chunk.end)
  }

  lemma TiledByOne(chunks: nat -> Option<Chunk>, offset: nat, end: nat)
    requires chunks(offset) == Some(Chunk(end, true))
    ensures TiledFrom(chunks, offset, end)
  {
    assert Tiled(chunks, [offset, end]);
  }

  lemma TiledFromEarlier(chunks: nat -> Option<Chunk>, offset: nat, next: nat, end: nat)
    requires chunks(offset) == Some(Chunk(next, false)) && TiledFrom(chunks, next, end)
    ensures TiledFrom(chunks, offset, end)
  {
    var cuts: seq<nat> :| Tiled(chunks, cuts) && cuts[0] == next && cuts[|cuts| - 1] == end;
    var all := [offset] + cuts;
    forall i | 0 <= i < |all| - 1
      ensures Tile(chunks, all, i)
    {
      if i > 0 { assert Tile(chunks, cuts, i - 1); }
    }
    assert Tiled(chunks, all);
  }

  lemma {:induction false} EndFromTiles(bytes: seq<byte>, offset: nat)
    ensures EndFrom(bytes, offset).Some? ==>
              && offset + 12 <= EndFrom(bytes, offset).value <= |bytes|
              && TiledFrom(Chunks(bytes), offset, EndFrom(bytes, offset).value)
    decreases |bytes| - offset
  {
    var chunk := Chunks(bytes)(offset);
    if chunk.Some? && chunk.value.last {
      TiledByOne(Chunks(bytes), offset, chunk.value.end);
    } else if chunk.Some? {
      EndFromTiles(bytes, chunk.value.end);
      if EndFrom(bytes, chunk.value.end).Some? {
        TiledFromEarlier(Chunks(bytes), offset, chunk.value.end, EndFrom(bytes, offset).value);
      }
    }
  }

  lemma {:induction false} TilesEnd(bytes: seq<byte>, cuts: seq<nat>)
    requires Tiled(Chunks(bytes), cuts)
    ensures EndFrom(bytes, cuts[0]) == Some(cuts[|cuts| - 1])
    decreases |cuts|
  {
    assert Tile(Chunks(bytes), cuts, 0);
    if |cuts| > 2 {
      TiledTail(Chunks(bytes), cuts);
      TilesEnd(bytes, cuts[1..]);
    }
  }

  lemma TiledTail(chunks: nat -> Option<Chunk>, cuts: seq<nat>)
    requires Tiled(chunks, cuts) && |cuts| > 2
    ensures Tiled(chunks, cuts[1..])
  {
    var rest := cuts[1..];
    forall i | 0 <= i < |rest| - 1
      ensures Tile(chunks, rest, i)
    {
      assert Tile(chunks, cuts, i + 1);
    }
  }

  /** A file's end is determined by where it starts. */
  lemma EndExact(bytes: seq<byte>, offset: nat, end: nat)
    ensures TiledFrom(Chunks(bytes), offset, end) <==> EndFrom(bytes, offset) == Some(end)
  {
    EndFromTiles(bytes, offset);
    if TiledFrom(Chunks(bytes), offset, end) {
      var cuts: seq<nat> :| Tiled(Chunks(bytes), cuts) && cuts[0] == offset && cuts[|cuts| - 1] == end;
      TilesEnd(bytes, cuts);
    }
  }

  method ParsePngEnd(bytes: seq<byte>, start: nat) returns (end: Option<nat>)
    requires start + 8 <= |bytes|
    ensures end == EndFrom(bytes, start + 8)
    ensures end.Some? ==> TiledFrom(Chunks(bytes), start + 8, end.value) && start + 20 <= end.value <= |bytes|
  {
    EndFromTiles(bytes, start + 8);
    var offset := start + 8;
    while offset + 12 <= |bytes|
      invariant EndFrom(bytes, offset) == EndFrom(bytes, start + 8)
      decreases |bytes| - offset
    {
      var length := U32(bytes, offset);
      var chunkEnd := offset + 8 + length + 4;
      if chunkEnd > |bytes| { return None; }
      if bytes[offset + 4..offset + 8] == IEND { return Some(chunkEnd); }
      offset := chunkEnd;
    }
    return None;
  }

  // ------------------------------------------------------------------- the scan

  predicate SignatureAt(bytes: seq<byte>, i: nat) {
    i + 8 <= |bytes| && bytes[i..i + 8] == SIGNATURE
  }

  /** The first signature at or after `from`. */
  method FindSignature(bytes: seq<byte>, from: nat) returns (found: Option<nat>)
    ensures found.Some? ==> from <= found.value && SignatureAt(bytes, found.value)
    ensures forall i: nat | from <= i && (found.Some? ==> i < found.value) :: !SignatureAt(bytes, i)
  {
    if from >= |bytes| || 8 > |bytes| { return None; }
    var index := from;
    while index <= |bytes| - 8
      invariant from <= index
      invariant forall i: nat | from <= i < index :: !SignatureAt(bytes, i)
    {
      if bytes[index..index + 8] == SIGNATURE { return Some(index); }
      index := index + 1;
    }
    return None;
  }

  datatype Candidate = Candidate(score: nat, start: nat, end: nat)

  /** A usable file starts at `start`. */
  ghost predicate UsableAt(bytes: seq<byte>, start: nat) {
    exists end: nat :: Usable(bytes, start, end)
  }

  ghost predicate Usable(bytes: seq<byte>, start: nat, end: nat) {
    IsPng(bytes, start, end) && start <= end <= |bytes| && Dimensions(bytes[start..end]).Some?
  }

  ghost predicate IsCandidate(bytes: seq<byte>, size: u32, c: Candidate) {
    && Usable(bytes, c.start, c.end)
    && var (width, height) := Dimensions(bytes[c.start..c.end]).value;
       c.score == SizeScore(width, height, size)
  }

  /** What the scan has found of the bytes before `cursor`: usable files, one after
      the other without overlap, and every usable file starts inside one. */
  ghost predicate Scanned(bytes: seq<byte>, size: u32, candidates: seq<Candidate>, cursor: nat) {
    && (forall c | c in candidates :: IsCandidate(bytes, size, c) && c.end <= cursor)
    && (forall i, j | 0 <= i < j < |candidates| :: candidates[i].end <= candidates[j].start)
    && forall s: nat | s < cursor && UsableAt(bytes, s) :: Inside(candidates, s)
  }

  ghost predicate Inside(candidates: seq<Candidate>, s: nat) {
    exists c | c in candidates :: c.start <= s < c.end
  }

  method ScanPngs(bytes: seq<byte>, size: u32) returns (candidates: seq<Candidate>)
    ensures Scanned(bytes, size, candidates, |bytes|)
  {
    candidates := [];
    var cursor := 0;
    while true
      invariant cursor <= |bytes|
      invariant Scanned(bytes, size, candidates, cursor)
      decreases |bytes| - cursor
    {
      var found := FindSignature(bytes, cursor);
      if found.None? {
        NothingBefore(bytes, size, candidates, cursor, |bytes|);
        break;
      }
      var taken := CandidateAt(bytes, size, found.value);
      if taken.Some? {
        Accept(bytes, size, candidates, cursor, taken.value);
        candidates := candidates + [taken.value];
        cursor := taken.value.end;
      } else {
        NothingBefore(bytes, size, candidates, cursor, found.value + 1);
        cursor := found.value + 1;
      }
    }
  }

  /** The usable file at a signature, with its score. */
  method CandidateAt(bytes: seq<byte>, size: u32, start: nat) returns (c: Option<Candidate>)
    requires SignatureAt(bytes, start)
    ensures c.Some? ==> IsCandidate(bytes, size, c.value) && c.value.start == start
    ensures c.None? ==> !UsableAt(bytes, start)
  {
    var end := ParsePngEnd(bytes, start);
    if end.Some? {
      var dimensions := Dimensions(bytes[start..end.value]);
      if dimensions.Some? {
        var (width, height) := dimensions.value;
        return Some(Candidate(SizeScore(width, height, size), start, end.value));
      }
    }
    if UsableAt(bytes, start) {
      var e: nat :| Usable(bytes, start, e);
      EndExact(bytes, start + 8, e);
    }
    c := None;
  }

  lemma NothingBefore(bytes: seq<byte>, size: u32, candidates: seq<Candidate>, cursor: nat, next: nat)
    requires Scanned(bytes, size, candidates, cursor) && cursor <= next
    requires forall i: nat | cursor <= i < next :: !SignatureAt(bytes, i) || !UsableAt(bytes, i)
    ensures Scanned(bytes, size, candidates, next)
  {
  }

  lemma Accept(bytes: seq<byte>, size: u32, candidates: seq<Candidate>, cursor: nat, c: Candidate)
    requires Scanned(bytes, size, candidates, cursor)
    requires IsCandidate(bytes, size, c) && cursor <= c.start
    requires forall i: nat | cursor <= i < c.start :: !SignatureAt(bytes, i)
    ensures Scanned(bytes, size, candidates + [c], c.end)
  {
    var all := candidates + [c];
    forall s: nat | s < c.end && UsableAt(bytes, s) ensures Inside(all, s) {
      if s < cursor {
        assert Inside(candidates, s);
        var d :| d in candidates && d.start <= s < d.end;
        assert d in all;
      } else if s < c.start {
        assert SignatureAt(bytes, s);
      } else {
        assert c in all;
      }
    }
    forall d | d in all ensures IsCandidate(bytes, size, d) && d.end <= c.end {
    }
  }

  // ------------------------------------------------------------------- the choice

  predicate Before(a: Candidate, b: Candidate) {
    a.score < b.score || (a.score == b.score && a.start <= b.start)
  }

  predicate Ordered(candidates: seq<Candidate>) {
    forall i, j | 0 <= i < j < |candidates| :: Before(candidates[i], candidates[j])
  }

  /** Puts `c` after every one that scores no worse: a stable sort by score. */
  function Insert(candidates: seq<Candidate>, c: Candidate): seq<Candidate> {
    if candidates == [] then [c]
    else
      var last := |candidates| - 1;
      if candidates[last].score <= c.score then candidates + [c]
      else Insert(candidates[..last], c) + [candidates[last]]
  }

  function SortByScore(candidates: seq<Candidate>): seq<Candidate> {
    if candidates == [] then []
    else Insert(SortByScore(candidates[..|candidates| - 1]), candidates[|candidates| - 1])
  }

  lemma {:induction false} InsertMembers(candidates: seq<Candidate>, c: Candidate, d: Candidate)
    ensures d in Insert(candidates, c) <==> d in candidates || d == c
  {
    if candidates != [] {
      var last := |candidates| - 1;
      assert candidates == candidates[..last] + [candidates[last]];
      InsertMembers(candidates[..last], c, d);
    }
  }

  lemma {:induction false} InsertOrdered(candidates: seq<Candidate>, c: Candidate)
    requires Ordered(candidates) && forall d | d in candidates :: d.start <= c.start
    ensures Ordered(Insert(candidates, c))
  {
    if candidates != [] {
      var last := |candidates| - 1;
      var front := Insert(candidates[..last], c);
      if candidates[last].score > c.score {
        InsertOrdered(candidates[..last], c);
        forall i | 0 <= i < |front| ensures Before(front[i], candidates[last]) {
          InsertMembers(candidates[..last], c, front[i]);
          assert front[i] in front;
        }
      }
    }
  }

  /** Sorting files found in order of position by score alone orders them by score
      and then by position. */
  lemma {:induction false} SortOrders(candidates: seq<Candidate>)
    requires forall i, j | 0 <= i < j < |candidates| :: candidates[i].end <= candidates[j].start
    requires forall c | c in candidates :: c.start <= c.end
    ensures Ordered(SortByScore(candidates))
    ensures forall d :: d in SortByScore(candidates) <==> d in candidates
  {
    if candidates != [] {
      var last := |candidates| - 1;
      SortOrders(candidates[..last]);
      assert candidates == candidates[..last] + [candidates[last]];
      InsertOrdered(SortByScore(candidates[..last]), candidates[last]);
      forall d ensures d in SortByScore(candidates) <==> d in candidates {
        InsertMembers(SortByScore(candidates[..last]), candidates[last], d);
      }
    }
  }

  /** `best` is what the first decodable candidate decodes to, closest to the size
      first and of two as close the first in the file. */
  ghost predicate IsBest<T(!new)>(bytes: seq<byte>, decode: seq<byte> -> Option<T>,
                                  candidates: seq<Candidate>, best: Option<T>)
    requires forall c | c in candidates :: c.start <= c.end <= |bytes|
  {
    match best
    case None => forall c | c in candidates :: decode(bytes[c.start..c.end]).None?
    case Some(_) =>
      exists c | c in candidates ::
        && decode(bytes[c.start..c.end]) == best
        && forall d | d in candidates && decode(bytes[d.start..d.end]).Some? ::
             c.score < d.score || (c.score == d.score && c.start <= d.start)
  }

  /** The embedded PNG closest to `size`; decoding is left to `decode`. */
  method FindBestPngIcon<T(!new)>(bytes: seq<byte>, size: u32, decode: seq<byte> -> Option<T>)
    returns (best: Option<T>)
    ensures exists candidates ::
      Scanned(bytes, size, candidates, |bytes|) && IsBest(bytes, decode, candidates, best)
  {
    var found := ScanPngs(bytes, size);
    SortOrders(found);
    var sorted := SortByScore(found);
    assert forall c | c in sorted :: c in found;
    best := FirstDecodable(bytes, decode, sorted);
  }

  method FirstDecodable<T(!new)>(bytes: seq<byte>, decode: seq<byte> -> Option<T>, sorted: seq<Candidate>)
    returns (best: Option<T>)
    requires Ordered(sorted) && forall c | c in sorted :: c.start <= c.end <= |bytes|
    ensures IsBest(bytes, decode, sorted, best)
  {
    for i := 0 to |sorted|
      invariant forall k | 0 <= k < i :: decode(bytes[sorted[k].start..sorted[k].end]).None?
    {
      var c := sorted[i];
      assert c in sorted;
      var image := decode(bytes[c.start..c.end]);
      if image.Some? { return image; }
    }
    return None;
  }
}
