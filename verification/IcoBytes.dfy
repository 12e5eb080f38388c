/** What module Ico's files are byte by byte: the directory copies the group's own bytes, and what the scan believes. */
module IcoBytes {
  import opened Wrappers
  import opened Bytes
  import opened Ico

  lemma U16Bytes(bytes: seq<byte>, at: nat)
    requires at + 2 <= |bytes|
    ensures U16(bytes, at) as int == Weighed2(bytes[at], bytes[at + 1])
  {
    Read2Weighs(bytes[at..at + 2]);
  }

  lemma U32Bytes(bytes: seq<byte>, at: nat)
    requires at + 4 <= |bytes|
    ensures U32(bytes, at) as int == Weighed4(bytes[at], bytes[at + 1], bytes[at + 2], bytes[at + 3])
  {
    Read4Weighs(bytes[at..at + 4]);
  }

  // ------------------------------------------------------------------------ building

  /** A group: two zero bytes, a one and a zero, how many entries, and 14 bytes of each. */
  predicate IsGroup(group: seq<byte>) {
    && |group| >= 6 && group[0] == 0 && group[1] == 0 && group[2] == 1 && group[3] == 0
    && 0 < Weighed2(group[4], group[5]) <= 256 && 6 + 14 * Weighed2(group[4], group[5]) <= |group|
  }

  // The id of an entry's icon: its last two bytes.
  function IconId(group: seq<byte>, i: nat): int
    requires 6 + 14 * i + 14 <= |group|
  {
    Weighed2(group[6 + 14 * i + 12], group[6 + 14 * i + 13])
  }

  /** Each directory entry is the first eight bytes of the group's, then how long the icon with its id is and where in
      the file it stands, little-endian. */
  ghost predicate CopiesEntry(ico: seq<byte>, group: seq<byte>, icons: map<u16, seq<byte>>, i: nat)
    requires 6 + 14 * i + 14 <= |group|
  {
    var at := 6 + 16 * i;
    && at + 16 <= |ico| && ico[at..at + 8] == group[6 + 14 * i..6 + 14 * i + 8]
    && IconId(group, i) in icons
    && var image := icons[IconId(group, i)];
       var start := Weighed4(ico[at + 12], ico[at + 13], ico[at + 14], ico[at + 15]);
       && Weighed4(ico[at + 8], ico[at + 9], ico[at + 10], ico[at + 11]) == |image|
       && 0 <= start && start + |image| <= |ico| && ico[start..start + |image|] == image
  }

  lemma GroupExactly(group: seq<byte>)
    ensures GroupEntries(group).Some? <==> IsGroup(group)
    ensures IsGroup(group) ==> |GroupEntries(group).value| == Weighed2(group[4], group[5])
  {
    if |group| >= 6 {
      U16Bytes(group, 0);
      U16Bytes(group, 2);
      U16Bytes(group, 4);
    }
  }

  lemma SameTwo(a: seq<byte>, i: nat, b: seq<byte>, j: nat)
    requires i + 2 <= |a| && j + 2 <= |b| && U16(a, i) == U16(b, j)
    ensures a[i] == b[j] && a[i + 1] == b[j + 1]
  {
    U16Bytes(a, i);
    U16Bytes(b, j);
  }

  lemma FieldsCopied(ico: seq<byte>, at: nat, group: seq<byte>, from: nat)
    requires at + 8 <= |ico| && from + 8 <= |group|
    requires ico[at..at + 4] == [group[from], group[from + 1], group[from + 2], group[from + 3]]
    requires U16(ico, at + 4) == U16(group, from + 4) && U16(ico, at + 6) == U16(group, from + 6)
    ensures ico[at..at + 8] == group[from..from + 8]
  {
    SameTwo(ico, at + 4, group, from + 4);
    SameTwo(ico, at + 6, group, from + 6);
    var four, a, b := ico[at..at + 4], ico[at..at + 8], group[from..from + 8];
    forall k | 0 <= k < 8
      ensures a[k] == b[k]
    {
      if k < 4 { assert four[k] == ico[at + k]; }
    }
  }

  lemma ImageCopied(ico: seq<byte>, at: nat, image: seq<byte>, start: nat)
    requires at + 16 <= |ico| && U32(ico, at + 8) == |image| && U32(ico, at + 12) == start
    ensures Weighed4(ico[at + 8], ico[at + 9], ico[at + 10], ico[at + 11]) == |image|
    ensures Weighed4(ico[at + 12], ico[at + 13], ico[at + 14], ico[at + 15]) == start
  {
    U32Bytes(ico, at + 8);
    U32Bytes(ico, at + 12);
  }

  lemma EntryCopied(ico: seq<byte>, group: seq<byte>, icons: map<u16, seq<byte>>, entries: seq<GroupEntry>, i: nat)
    requires GroupEntries(group) == Some(entries) && i < |entries|
    requires AllThere(entries, icons) && IsIco(ico, entries, ImagesOf(entries, icons))
    ensures 6 + 14 * i + 14 <= |group| && CopiesEntry(ico, group, icons, i)
  {
    var images, at, from, e := ImagesOf(entries, icons), 6 + 16 * i, 6 + 14 * i, entries[i];
    assert e == EntryAt(group, i) && e in entries;
    assert EntrySelects(ico, entries, images, i);
    U16Bytes(group, from + 12);
    FieldsCopied(ico, at, group, from);
    ImageCopied(ico, at, images[i], ImageOffset(images, i));
  }

  /** A rebuilt file, byte by byte: its header is the group's, and every entry is copied. */
  lemma RebuiltCopies(ico: seq<byte>, group: seq<byte>, icons: map<u16, seq<byte>>, entries: seq<GroupEntry>)
    requires GroupEntries(group) == Some(entries)
    requires AllThere(entries, icons) && IsIco(ico, entries, ImagesOf(entries, icons))
    ensures IsGroup(group) && |ico| >= 6 && ico[..6] == group[..6]
    ensures forall i: nat | i < Weighed2(group[4], group[5]) ::
      6 + 14 * i + 14 <= |group| && CopiesEntry(ico, group, icons, i)
  {
    GroupExactly(group);
    U16Bytes(ico, 0);
    U16Bytes(ico, 2);
    SameTwo(ico, 4, group, 4);
    forall i: nat | i < Weighed2(group[4], group[5])
      ensures 6 + 14 * i + 14 <= |group| && CopiesEntry(ico, group, icons, i)
    {
      EntryCopied(ico, group, icons, entries, i);
    }
  }

  // ------------------------------------------------------------------------ scanning

  // How many entries the bytes at `at` claim to have.
  function Claimed(bytes: seq<byte>, at: nat): int
    requires at + 6 <= |bytes|
  {
    Weighed2(bytes[at + 4], bytes[at + 5])
  }

  predicate EntryBelieved(bytes: seq<byte>, at: nat, i: nat)
    requires at + 6 + 16 * i + 16 <= |bytes|
  {
    var e := at + 6 + 16 * i;
    var size := Weighed4(bytes[e + 8], bytes[e + 9], bytes[e + 10], bytes[e + 11]);
    var start := Weighed4(bytes[e + 12], bytes[e + 13], bytes[e + 14], bytes[e + 15]);
    size > 0 && start >= 6 + 16 * Claimed(bytes, at) && at + start + size <= |bytes|
  }

  /** What the scan believes, byte by byte: the four bytes of an ICO header, one to 64 entries that fit, and each with
      an image that is not empty, stands after the directory and ends inside. */
  ghost predicate Believed(bytes: seq<byte>, at: nat) {
    && at + 6 <= |bytes| && bytes[at..at + 4] == [0, 0, 1, 0]
    && 0 < Claimed(bytes, at) <= 64 && at + 6 + 16 * Claimed(bytes, at) <= |bytes|
    && forall i: nat | i < Claimed(bytes, at) :: EntryBelieved(bytes, at, i)
  }

  lemma HeaderExactly(bytes: seq<byte>, at: nat)
    ensures HeaderAt(bytes, at) <==>
      && at + 6 <= |bytes| && bytes[at..at + 4] == [0, 0, 1, 0]
      && 0 < Claimed(bytes, at) <= 64 && at + 6 + 16 * Claimed(bytes, at) <= |bytes|
    ensures HeaderAt(bytes, at) ==> U16(bytes, at + 4) as int == Claimed(bytes, at)
  {
    if at + 6 <= |bytes| {
      U16Bytes(bytes, at + 4);
      var s := bytes[at..at + 4];
      assert s[0] == bytes[at] && s[1] == bytes[at + 1] && s[2] == bytes[at + 2] && s[3] == bytes[at + 3];
    }
  }

  /** The scan believes a file exactly then, so what it returns starts at the first such place. */
  lemma BelievedExactly(bytes: seq<byte>, at: nat)
    ensures IcoAt(bytes, at) <==> Believed(bytes, at)
  {
    HeaderExactly(bytes, at);
    if HeaderAt(bytes, at) {
      forall i: nat | i < U16(bytes, at + 4)
        ensures EntryOk(bytes, at, i) <==> EntryBelieved(bytes, at, i)
      {
        U32Bytes(bytes, at + 6 + 16 * i + 8);
        U32Bytes(bytes, at + 6 + 16 * i + 12);
      }
    }
  }
}
