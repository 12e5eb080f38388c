/** Integers in bytes, and byte strings laid end to end. */
module Bytes {
  import opened Wrappers

  datatype Endian = Little | Big

  function Bytes2(e: Endian, x: u16): (s: seq<byte>)
    ensures |s| == 2
  {
    if e.Little? then [x % 0x100, x / 0x100] else [x / 0x100, x % 0x100]
  }

  function Read2(e: Endian, s: seq<byte>): u16
    requires |s| == 2
  {
    var (x: int, y: int) := (s[0], s[1]);
    if e.Little? then x + 0x100 * y else y + 0x100 * x
  }

  function Bytes4(e: Endian, x: u32): (s: seq<byte>)
    ensures |s| == 4
  {
    if e.Little? then Bytes2(e, x % 0x1_0000) + Bytes2(e, x / 0x1_0000)
    else Bytes2(e, x / 0x1_0000) + Bytes2(e, x % 0x1_0000)
  }

  function Read4(e: Endian, s: seq<byte>): u32
    requires |s| == 4
  {
    if e.Little? then Read2(e, s[..2]) + 0x1_0000 * Read2(e, s[2..])
    else Read2(e, s[2..]) + 0x1_0000 * Read2(e, s[..2])
  }

  /** The number of two or four bytes, the one that counts least first. */
  function Weighed2(a: byte, b: byte): int {
    a + 0x100 * (b as int)
  }

  function Weighed4(a: byte, b: byte, c: byte, d: byte): int {
    a + 0x100 * (b as int) + 0x1_0000 * (c as int) + 0x100_0000 * (d as int)
  }

  /** Little-endian has the low byte first, big-endian the high one. */
  lemma Bytes2Weigh(x: u16)
    ensures var s := Bytes2(Little, x); Weighed2(s[0], s[1]) == x
    ensures var s := Bytes2(Big, x); Weighed2(s[1], s[0]) == x
  {
  }

  lemma Bytes4Weigh(x: u32)
    ensures var s := Bytes4(Little, x); Weighed4(s[0], s[1], s[2], s[3]) == x
    ensures var s := Bytes4(Big, x); Weighed4(s[3], s[2], s[1], s[0]) == x
  {
    Bytes2Weigh(x % 0x1_0000);
    Bytes2Weigh(x / 0x1_0000);
  }

  lemma Read2Weighs(s: seq<byte>)
    requires |s| == 2
    ensures Read2(Little, s) == Weighed2(s[0], s[1]) && Read2(Big, s) == Weighed2(s[1], s[0])
  {
  }

  lemma Read4Weighs(s: seq<byte>)
    requires |s| == 4
    ensures Read4(Little, s) == Weighed4(s[0], s[1], s[2], s[3]) && Read4(Big, s) == Weighed4(s[3], s[2], s[1], s[0])
  {
  }

  /** `slots` end to end. */
  function Concat(slots: seq<seq<byte>>): seq<byte> {
    if slots == [] then [] else Concat(slots[..|slots| - 1]) + slots[|slots| - 1]
  }

  /** Where slot `i` starts, or with `i` the number of slots where they end. */
  function Offset(slots: seq<seq<byte>>, i: nat): nat
    requires i <= |slots|
  {
    if i == 0 then 0 else Offset(slots, i - 1) + |slots[i - 1]|
  }

  lemma ConcatSnoc(slots: seq<seq<byte>>, slot: seq<byte>)
    ensures Concat(slots + [slot]) == Concat(slots) + slot
  {
    assert (slots + [slot])[..|slots|] == slots;
  }

  lemma {:induction false} OffsetFront(slots: seq<seq<byte>>, n: nat, i: nat)
    requires i <= n <= |slots|
    ensures Offset(slots[..n], i) == Offset(slots, i)
  {
    if i > 0 { OffsetFront(slots, n, i - 1); }
  }

  lemma {:induction false} ConcatLength(slots: seq<seq<byte>>)
    ensures |Concat(slots)| == Offset(slots, |slots|)
  {
    if slots != [] {
      ConcatLength(slots[..|slots| - 1]);
      OffsetFront(slots, |slots| - 1, |slots| - 1);
    }
  }

  lemma {:induction false} OffsetMonotone(slots: seq<seq<byte>>, i: nat, j: nat)
    requires i <= j <= |slots|
    ensures Offset(slots, i) <= Offset(slots, j)
  {
    if i < j { OffsetMonotone(slots, i, j - 1); }
  }

  /** Every slot is found where its offset says. */
  lemma {:induction false} SlotAt(slots: seq<seq<byte>>, i: nat)
    requires i < |slots|
    ensures Offset(slots, i + 1) == Offset(slots, i) + |slots[i]| <= |Concat(slots)|
    ensures Concat(slots)[Offset(slots, i)..Offset(slots, i + 1)] == slots[i]
  {
    var last := |slots| - 1;
    ConcatLength(slots);
    ConcatLength(slots[..last]);
    OffsetFront(slots, last, last);
    OffsetMonotone(slots, i + 1, |slots|);
    var front := Concat(slots[..last]);
    assert Concat(slots) == front + slots[last];
    if i < last {
      SlotAt(slots[..last], i);
      OffsetFront(slots, last, i);
      OffsetFront(slots, last, i + 1);
      assert (front + slots[last])[Offset(slots, i)..Offset(slots, i + 1)]
          == front[Offset(slots, i)..Offset(slots, i + 1)];
    }
  }

  /** A slice of a slice. */
  lemma SliceOfSlice(s: seq<byte>, lo: nat, hi: nat, x: nat, y: nat)
    requires lo <= hi <= |s| && x <= y <= hi - lo
    ensures s[lo..hi][x..y] == s[lo + x..lo + y]
  {
    var whole, part := s[lo..hi], s[lo + x..lo + y];
    assert |whole[x..y]| == |part|;
    forall i | 0 <= i < |part| ensures whole[x..y][i] == part[i] {
      assert whole[x + i] == s[lo + (x + i)];
    }
  }
}
