/** ICO files: rebuilding one from an executable's icon group, and finding one
    among other bytes. */
module Ico {
  import opened Wrappers
  import opened Bytes

  const HEADER_LEN := 6
  const DIR_ENTRY_LEN := 16
  /** Most entries the scanner believes. */
  const MAX_DIR_ENTRIES := 64
  /** Most entries a group may have. */
  const MAX_GROUP_ENTRIES := 256
  const GROUP_ENTRY_LEN := 14

  function U16(bytes: seq<byte>, offset: nat): u16
    requires offset + 2 <= |bytes|
  {
    Read2(Little, bytes[offset..offset + 2])
  }

  function U32(bytes: seq<byte>, offset: nat): u32
    requires offset + 4 <= |bytes|
  {
    Read4(Little, bytes[offset..offset + 4])
  }

  // ---------------------------------------------------------------------- building

  datatype GroupEntry = GroupEntry(width: byte, height: byte, colorCount: byte, reserved: byte,
                                   planes: u16, bitCount: u16, iconId: u16)

  function EntryAt(group: seq<byte>, i: nat): GroupEntry
    requires 6 + 14 * (i + 1) <= |group|
  {
    var at := 6 + 14 * i;
    GroupEntry(group[at], group[at + 1], group[at + 2], group[at + 3],
               U16(group, at + 4), U16(group, at + 6), U16(group, at + 12))
  }

  /** The entries of a group resource, unless it is malformed. */
  function GroupEntries(group: seq<byte>): Option<seq<GroupEntry>> {
    if |group| < 6 || U16(group, 0) != 0 || U16(group, 2) != 1 then None
    else
      var count := U16(group, 4);
      if count == 0 || count > MAX_GROUP_ENTRIES || 6 + count * GROUP_ENTRY_LEN > |group| then None
      else Some(seq(count, i requires 0 <= i < count => EntryAt(group, i)))
  }

  function DirEntry(entry: GroupEntry, size: u32, offset: u32): (s: seq<byte>)
    ensures |s| == DIR_ENTRY_LEN
  {
    [entry.width, entry.height, entry.colorCount, entry.reserved]
    + Bytes2(Little, entry.planes) + Bytes2(Little, entry.bitCount)
    + Bytes4(Little, size) + Bytes4(Little, offset)
  }

  /** Where image `i` starts. */
  function ImageOffset(images: seq<seq<byte>>, i: nat): nat
    requires i <= |images|
  {
    HEADER_LEN + DIR_ENTRY_LEN * |images| + Offset(images, i)
  }

  /** Every size and offset fits its 32-bit field. */
  ghost predicate Writable(images: seq<seq<byte>>) { WritableUpTo(images, |images|) }

  ghost predicate WritableUpTo(images: seq<seq<byte>>, n: nat)
    requires n <= |images|
  {
    forall i {:trigger FieldsFit(images, i)} | 0 <= i < n :: FieldsFit(images, i)
  }

  ghost predicate FieldsFit(images: seq<seq<byte>>, i: nat)
    requires i < |images|
  {
    |images[i]| < 0x1_0000_0000 && ImageOffset(images, i) < 0x1_0000_0000
  }

  function Header(count: u16): (s: seq<byte>)
    ensures |s| == HEADER_LEN
  {
    Bytes2(Little, 0) + Bytes2(Little, 1) + Bytes2(Little, count)
  }

  /** `ico` is the file of these images: the header counts them, each directory
      entry keeps the group's fields and its size and offset select exactly its
      image, and the images fill the rest of the file in order. */
  ghost predicate IsIco(ico: seq<byte>, entries: seq<GroupEntry>, images: seq<seq<byte>>) {
    && |entries| == |images| && |ico| == ImageOffset(images, |images|)
    && U16(ico, 0) == 0 && U16(ico, 2) == 1 && U16(ico, 4) == |images|
    && forall i | 0 <= i < |images| :: EntrySelects(ico, entries, images, i)
  }

  ghost predicate EntrySelects(ico: seq<byte>, entries: seq<GroupEntry>, images: seq<seq<byte>>, i: nat)
    requires |entries| == |images| && i < |images| && |ico| == ImageOffset(images, |images|)
  {
    var at, e := HEADER_LEN + DIR_ENTRY_LEN * i, entries[i];
    && ico[at..at + 4] == [e.width, e.height, e.colorCount, e.reserved]
    && U16(ico, at + 4) == e.planes && U16(ico, at + 6) == e.bitCount
    && U32(ico, at + 8) == |images[i]| && U32(ico, at + 12) == ImageOffset(images, i)
    && ImageOffset(images, i) + |images[i]| == ImageOffset(images, i + 1) <= |ico|
    && ico[ImageOffset(images, i)..ImageOffset(images, i + 1)] == images[i]
  }

  /** Whether every entry's icon is there. */
  ghost predicate AllThere(entries: seq<GroupEntry>, icons: map<u16, seq<byte>>) {
    forall e | e in entries :: e.iconId in icons
  }

  /** The icons in the group's order. */
  ghost function ImagesOf(entries: seq<GroupEntry>, icons: map<u16, seq<byte>>): seq<seq<byte>>
    requires AllThere(entries, icons)
  {
    seq(|entries|, i requires 0 <= i < |entries| => icons[entries[i].iconId])
  }

  /** Rebuilds the ICO file of an icon group. It is refused exactly when the group
      is malformed, an icon is missing, or a size or offset overflows. */
  method BuildIcoFromGroup(group: seq<byte>, icons: map<u16, seq<byte>>) returns (result: Option<seq<byte>>)
    ensures result.Some? <==>
      var entries := GroupEntries(group);
      entries.Some? && AllThere(entries.value, icons) && Writable(ImagesOf(entries.value, icons))
    ensures result.Some? ==>
      var entries := GroupEntries(group).value;
      IsIco(result.value, entries, ImagesOf(entries, icons))
  {
    var parsed := GroupEntries(group);
    if parsed.None? { return None; }
    var found := FindImages(parsed.value, icons);
    if found.None? { return None; }
    result := WriteIco(parsed.value, found.value);
  }

  method FindImages(entries: seq<GroupEntry>, icons: map<u16, seq<byte>>)
    returns (images: Option<seq<seq<byte>>>)
    ensures images.Some? <==> AllThere(entries, icons)
    ensures images.Some? ==> images.value == ImagesOf(entries, icons)
  {
    var found: seq<seq<byte>> := [];
    for i := 0 to |entries|
      invariant |found| == i
      invariant forall j | 0 <= j < i :: entries[j].iconId in icons && found[j] == icons[entries[j].iconId]
    {
      if entries[i].iconId !in icons { return None; }
      found := found + [icons[entries[i].iconId]];
    }
    return Some(found);
  }

  method WriteIco(entries: seq<GroupEntry>, images: seq<seq<byte>>) returns (result: Option<seq<byte>>)
    requires |entries| == |images| <= MAX_GROUP_ENTRIES
    ensures result.Some? <==> Writable(images)
    ensures result.Some? ==> IsIco(result.value, entries, images)
  {
    result := WriteDirectory(Header(|images|), entries, images);
    if result.None? { return; }
    var output := AppendImages(result.value, [Header(|images|)] + DirSlots(entries, images, |images|), images);
    LaidOut(entries, images);
    return Some(output);
  }

  method AppendImages(before: seq<byte>, ghost head: seq<seq<byte>>, images: seq<seq<byte>>)
    returns (output: seq<byte>)
    requires before == Concat(head)
    ensures output == Concat(head + images)
  {
    output := before;
    assert head + images[..0] == head;
    for i := 0 to |images|
      invariant output == Concat(head + images[..i])
    {
      ImageStep(head, images, i);
      output := output + images[i];
    }
    assert images[..|images|] == images;
  }

  lemma ImageStep(head: seq<seq<byte>>, images: seq<seq<byte>>, i: nat)
    requires i < |images|
    ensures Concat(head + images[..i + 1]) == Concat(head + images[..i]) + images[i]
  {
    ConcatSnoc(head + images[..i], images[i]);
    assert head + images[..i + 1] == head + images[..i] + [images[i]];
  }

  lemma DirStep(head: seq<byte>, slots: seq<seq<byte>>, slot: seq<byte>)
    ensures Concat([head] + (slots + [slot])) == Concat([head] + slots) + slot
  {
    ConcatSnoc([head] + slots, slot);
    assert [head] + (slots + [slot]) == [head] + slots + [slot];
  }

  /** Writes the directory after `head`. */
  method WriteDirectory(head: seq<byte>, entries: seq<GroupEntry>, images: seq<seq<byte>>)
    returns (result: Option<seq<byte>>)
    requires |entries| == |images| <= MAX_GROUP_ENTRIES
    ensures result.Some? <==> Writable(images)
    ensures result.Some? ==> result.value == Concat([head] + DirSlots(entries, images, |images|))
  {
    var output := head;
    var imageOffset := HEADER_LEN + DIR_ENTRY_LEN * |images|;
    assert Concat([head]) == head;
    for i := 0 to |images|
      invariant WritableUpTo(images, i)
      invariant output == Concat([head] + DirSlots(entries, images, i))
      invariant imageOffset == ImageOffset(images, i)
    {
      assert FieldsFit(images, i) <==> |images[i]| < 0x1_0000_0000 && imageOffset < 0x1_0000_0000;
      if |images[i]| >= 0x1_0000_0000 || imageOffset >= 0x1_0000_0000 { return None; }
      SlotsSnoc(entries, images, i);
      DirStep(head, DirSlots(entries, images, i), DirEntry(entries[i], |images[i]|, imageOffset));
      output := output + DirEntry(entries[i], |images[i]|, imageOffset);
      imageOffset := imageOffset + |images[i]|;
    }
    return Some(output);
  }

  lemma SlotsSnoc(entries: seq<GroupEntry>, images: seq<seq<byte>>, i: nat)
    requires |entries| == |images| && i < |images| && WritableUpTo(images, i + 1)
    ensures FieldsFit(images, i) && WritableUpTo(images, i)
    ensures DirSlots(entries, images, i + 1) ==
      DirSlots(entries, images, i) + [DirEntry(entries[i], |images[i]|, ImageOffset(images, i))]
  {
  }

  /** The first `n` directory entries. */
  ghost function DirSlots(entries: seq<GroupEntry>, images: seq<seq<byte>>, n: nat): (slots: seq<seq<byte>>)
    requires |entries| == |images| && n <= |images| && WritableUpTo(images, n)
    ensures |slots| == n && forall slot | slot in slots :: |slot| == DIR_ENTRY_LEN
  {
    if n == 0 then []
    else
      assert FieldsFit(images, n - 1);
      DirSlots(entries, images, n - 1)
         + [DirEntry(entries[n - 1], |images[n - 1]|, ImageOffset(images, n - 1))]
  }

  lemma {:induction false} DirSlotAt(entries: seq<GroupEntry>, images: seq<seq<byte>>, n: nat, i: nat)
    requires |entries| == |images| && i < n <= |images| && WritableUpTo(images, n)
    ensures FieldsFit(images, i)
    ensures DirSlots(entries, images, n)[i] == DirEntry(entries[i], |images[i]|, ImageOffset(images, i))
  {
    SlotsSnoc(entries, images, n - 1);
    if i < n - 1 {
      DirSlotAt(entries, images, n - 1, i);
      assert DirSlots(entries, images, n)[..n - 1] == DirSlots(entries, images, n - 1);
    }
  }

  /** The pieces of a file: header, directory entries, images. */
  ghost function Parts(images: seq<seq<byte>>, slots: seq<seq<byte>>): seq<seq<byte>>
    requires |images| < 0x1_0000
  {
    [Header(|images|)] + slots + images
  }

  lemma {:induction false} SlotOffsets(images: seq<seq<byte>>, slots: seq<seq<byte>>, i: nat)
    requires |slots| == |images| <= MAX_GROUP_ENTRIES && i <= |images|
    requires forall slot | slot in slots :: |slot| == DIR_ENTRY_LEN
    ensures Offset(Parts(images, slots), 1 + i) == 6 + 16 * i
  {
    if i == 0 {
      assert Offset(Parts(images, slots), 1) == Offset(Parts(images, slots), 0) + 6;
    } else {
      SlotOffsets(images, slots, i - 1);
      assert Parts(images, slots)[i] == slots[i - 1];
    }
  }

  lemma {:induction false} PartOffsets(images: seq<seq<byte>>, slots: seq<seq<byte>>, i: nat)
    requires |slots| == |images| <= MAX_GROUP_ENTRIES && i <= |images|
    requires forall slot | slot in slots :: |slot| == DIR_ENTRY_LEN
    ensures Offset(Parts(images, slots), 1 + |images| + i) == ImageOffset(images, i)
  {
    if i == 0 {
      SlotOffsets(images, slots, |images|);
    } else {
      PartOffsets(images, slots, i - 1);
      assert Parts(images, slots)[|images| + i] == images[i - 1];
    }
  }

  lemma SlotFields(ico: seq<byte>, at: nat, e: GroupEntry, size: u32, offset: u32)
    requires at + 16 <= |ico| && ico[at..at + 16] == DirEntry(e, size, offset)
    ensures ico[at..at + 4] == [e.width, e.height, e.colorCount, e.reserved]
    ensures U16(ico, at + 4) == e.planes && U16(ico, at + 6) == e.bitCount
    ensures U32(ico, at + 8) == size && U32(ico, at + 12) == offset
  {
    SliceOfSlice(ico, at, at + 16, 0, 4);
    SliceOfSlice(ico, at, at + 16, 4, 6);
    SliceOfSlice(ico, at, at + 16, 6, 8);
    SliceOfSlice(ico, at, at + 16, 8, 12);
    SliceOfSlice(ico, at, at + 16, 12, 16);
  }

  lemma HeaderFields(ico: seq<byte>, count: u16)
    requires |ico| >= 6 && ico[0..6] == Header(count)
    ensures U16(ico, 0) == 0 && U16(ico, 2) == 1 && U16(ico, 4) == count
  {
    var s := Header(count);
    assert s[0..2] == Bytes2(Little, 0) && s[2..4] == Bytes2(Little, 1) && s[4..6] == Bytes2(Little, count);
    SliceOfSlice(ico, 0, 6, 0, 2);
    SliceOfSlice(ico, 0, 6, 2, 4);
    SliceOfSlice(ico, 0, 6, 4, 6);
  }

  ghost function FileParts(entries: seq<GroupEntry>, images: seq<seq<byte>>): seq<seq<byte>>
    requires |entries| == |images| <= MAX_GROUP_ENTRIES && Writable(images)
  {
    Parts(images, DirSlots(entries, images, |images|))
  }

  lemma LaidOut(entries: seq<GroupEntry>, images: seq<seq<byte>>)
    requires |entries| == |images| <= MAX_GROUP_ENTRIES && Writable(images)
    ensures IsIco(Concat(FileParts(entries, images)), entries, images)
  {
    var parts, slots := FileParts(entries, images), DirSlots(entries, images, |images|);
    PartOffsets(images, slots, |images|);
    SlotOffsets(images, slots, 0);
    ConcatLength(parts);
    SlotAt(parts, 0);
    HeaderFields(Concat(parts), |images|);
    forall i | 0 <= i < |images| ensures EntrySelects(Concat(parts), entries, images, i) {
      SelectsOne(entries, images, i);
    }
  }

  lemma SlotFound(images: seq<seq<byte>>, slots: seq<seq<byte>>, i: nat)
    requires |slots| == |images| <= MAX_GROUP_ENTRIES && i < |images|
    requires forall slot | slot in slots :: |slot| == DIR_ENTRY_LEN
    ensures var ico := Concat(Parts(images, slots));
      6 + 16 * i + 16 <= |ico| && ico[6 + 16 * i..6 + 16 * i + 16] == slots[i]
  {
    SlotOffsets(images, slots, i);
    SlotOffsets(images, slots, i + 1);
    SlotAt(Parts(images, slots), 1 + i);
  }

  lemma PartsFound(images: seq<seq<byte>>, slots: seq<seq<byte>>, i: nat)
    requires |slots| == |images| <= MAX_GROUP_ENTRIES && i < |images|
    requires forall slot | slot in slots :: |slot| == DIR_ENTRY_LEN
    ensures var ico := Concat(Parts(images, slots));
      && 6 + 16 * i + 16 <= |ico| && ico[6 + 16 * i..6 + 16 * i + 16] == slots[i]
      && ImageOffset(images, i) + |images[i]| == ImageOffset(images, i + 1) <= |ico|
      && ico[ImageOffset(images, i)..ImageOffset(images, i + 1)] == images[i]
  {
    SlotFound(images, slots, i);
    var parts := Parts(images, slots);
    PartOffsets(images, slots, i);
    PartOffsets(images, slots, i + 1);
    SlotAt(parts, 1 + |images| + i);
  }

  lemma SelectsOne(entries: seq<GroupEntry>, images: seq<seq<byte>>, i: nat)
    requires |entries| == |images| <= MAX_GROUP_ENTRIES && Writable(images) && i < |images|
    requires |Concat(FileParts(entries, images))| == ImageOffset(images, |images|)
    ensures EntrySelects(Concat(FileParts(entries, images)), entries, images, i)
  {
    PartsFound(images, DirSlots(entries, images, |images|), i);
    DirSlotAt(entries, images, |images|, i);
    SlotFields(Concat(FileParts(entries, images)), 6 + 16 * i, entries[i], |images[i]|, ImageOffset(images, i));
  }

  // ---------------------------------------------------------------------- scanning

  predicate HeaderAt(bytes: seq<byte>, index: nat) {
    && index + HEADER_LEN <= |bytes|
    && bytes[index] == 0 && bytes[index + 1] == 0 && bytes[index + 2] == 1 && bytes[index + 3] == 0
    && 0 < U16(bytes, index + 4) <= MAX_DIR_ENTRIES
    && index + TableLen(bytes, index) <= |bytes|
  }

  function TableLen(bytes: seq<byte>, index: nat): nat
    requires index + HEADER_LEN <= |bytes|
  {
    HEADER_LEN + U16(bytes, index + 4) * DIR_ENTRY_LEN
  }

  function ImageSize(bytes: seq<byte>, index: nat, entry: nat): u32
    requires HeaderAt(bytes, index) && entry < U16(bytes, index + 4)
  {
    U32(bytes, index + HEADER_LEN + entry * DIR_ENTRY_LEN + 8)
  }

  function ImageStart(bytes: seq<byte>, index: nat, entry: nat): u32
    requires HeaderAt(bytes, index) && entry < U16(bytes, index + 4)
  {
    U32(bytes, index + HEADER_LEN + entry * DIR_ENTRY_LEN + 12)
  }

  predicate EntryOk(bytes: seq<byte>, index: nat, entry: nat)
    requires HeaderAt(bytes, index) && entry < U16(bytes, index + 4)
  {
    && ImageSize(bytes, index, entry) != 0
    && ImageStart(bytes, index, entry) >= TableLen(bytes, index)
    && index + ImageStart(bytes, index, entry) + ImageSize(bytes, index, entry) <= |bytes|
  }

  /** A believable ICO file starts at `index`. */
  predicate IcoAt(bytes: seq<byte>, index: nat) {
    HeaderAt(bytes, index) && forall entry: nat | entry < U16(bytes, index + 4) :: EntryOk(bytes, index, entry)
  }

  /** It ends with the furthest byte its table or an image reaches. */
  ghost predicate IcoEnd(bytes: seq<byte>, index: nat, end: nat)
    requires IcoAt(bytes, index)
  {
    && index + TableLen(bytes, index) <= end <= |bytes|
    && (forall entry: nat | entry < U16(bytes, index + 4) ::
          index + ImageStart(bytes, index, entry) + ImageSize(bytes, index, entry) <= end)
    && (end == index + TableLen(bytes, index)
        || exists entry: nat :: entry < U16(bytes, index + 4)
             && end == index + ImageStart(bytes, index, entry) + ImageSize(bytes, index, entry))
  }

  /** Checks the directory of a file that starts at `index`, and finds its end. */
  method CheckEntries(bytes: seq<byte>, index: nat) returns (end: Option<nat>)
    requires HeaderAt(bytes, index)
    ensures end.Some? <==> IcoAt(bytes, index)
    ensures end.Some? ==> IcoEnd(bytes, index, end.value)
  {
    var count := U16(bytes, index + 4);
    var furthest := index + TableLen(bytes, index);
    for entry := 0 to count
      invariant index + TableLen(bytes, index) <= furthest <= |bytes|
      invariant forall e: nat | e < entry :: EntryOk(bytes, index, e)
      invariant forall e: nat | e < entry ::
                  index + ImageStart(bytes, index, e) + ImageSize(bytes, index, e) <= furthest
      invariant furthest == index + TableLen(bytes, index)
                || exists e: nat :: e < entry
                     && furthest == index + ImageStart(bytes, index, e) + ImageSize(bytes, index, e)
    {
      var size, start := ImageSize(bytes, index, entry), ImageStart(bytes, index, entry);
      if size == 0 || start < TableLen(bytes, index) || index + start + size > |bytes| {
        assert !EntryOk(bytes, index, entry);
        return None;
      }
      if index + start + size > furthest { furthest := index + start + size; }
    }
    return Some(furthest);
  }

  ghost predicate FoundAt(bytes: seq<byte>, blob: seq<byte>, at: nat) {
    && IcoAt(bytes, at) && (forall i: nat | i < at :: !IcoAt(bytes, i))
    && at + |blob| <= |bytes| && blob == bytes[at..at + |blob|]
    && IcoEnd(bytes, at, at + |blob|)
  }

  /** `blob` is the first believable file in `bytes`, if there is one. */
  ghost predicate IsFirstIco(bytes: seq<byte>, blob: Option<seq<byte>>) {
    match blob
    case Some(b) => exists at: nat :: FoundAt(bytes, b, at)
    case None => forall i: nat :: !IcoAt(bytes, i)
  }

  method FindIcoBlob(bytes: seq<byte>) returns (blob: Option<seq<byte>>)
    ensures IsFirstIco(bytes, blob)
  {
    if |bytes| < HEADER_LEN { return None; }
    for index := 0 to |bytes| - HEADER_LEN + 1
      invariant forall i: nat | i < index :: !IcoAt(bytes, i)
    {
      if HeaderAt(bytes, index) {
        var end := CheckEntries(bytes, index);
        if end.Some? {
          assert FoundAt(bytes, bytes[index..end.value], index);
          return Some(bytes[index..end.value]);
        }
      }
    }
    return None;
  }

  lemma BuiltEntry(ico: seq<byte>, entries: seq<GroupEntry>, images: seq<seq<byte>>, i: nat)
    requires IsIco(ico, entries, images) && i < |images| && HeaderAt(ico, 0)
    ensures EntryOk(ico, 0, i) <==> images[i] != []
    ensures ImageStart(ico, 0, i) + ImageSize(ico, 0, i) == ImageOffset(images, i + 1) <= |ico|
  {
    assert EntrySelects(ico, entries, images, i);
  }

  predicate AllNonEmpty(images: seq<seq<byte>>) {
    forall i | 0 <= i < |images| :: images[i] != []
  }

  /** A built file is believed where it starts exactly when it has at most 64
      entries and none of its images is empty, and then it ends where it ends. */
  lemma BuiltIsFound(ico: seq<byte>, entries: seq<GroupEntry>, images: seq<seq<byte>>)
    requires IsIco(ico, entries, images) && 0 < |images|
    ensures IcoAt(ico, 0) <==> |images| <= MAX_DIR_ENTRIES && AllNonEmpty(images)
    ensures IcoAt(ico, 0) ==> forall end: nat | IcoEnd(ico, 0, end) :: end == |ico|
  {
    if HeaderAt(ico, 0) {
      forall i: nat | i < |images|
        ensures EntryOk(ico, 0, i) <==> images[i] != []
        ensures ImageStart(ico, 0, i) + ImageSize(ico, 0, i) <= |ico|
      {
        BuiltEntry(ico, entries, images, i);
      }
      BuiltEntry(ico, entries, images, |images| - 1);
    }
  }

  /** Building and scanning undo each other: scanning a built file gives all of it
      back exactly when the scanner believes its directory. */
  lemma FindUndoesBuild(ico: seq<byte>, entries: seq<GroupEntry>, images: seq<seq<byte>>, found: Option<seq<byte>>)
    requires IsIco(ico, entries, images) && 0 < |images| && IsFirstIco(ico, found)
    ensures found == Some(ico) <==> |images| <= MAX_DIR_ENTRIES && AllNonEmpty(images)
  {
    BuiltIsFound(ico, entries, images);
    if found.Some? {
      var at: nat :| FoundAt(ico, found.value, at);
      if IcoAt(ico, 0) {
        assert IcoEnd(ico, 0, |found.value|) && ico[0..|ico|] == ico;
      }
    }
  }
}
