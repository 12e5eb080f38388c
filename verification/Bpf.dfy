/** Classic BPF as the kernel runs it on a seccomp filter: the `struct
    sock_filter` byte image, and an interpreter over that image. */
module Bpf {
  import opened Wrappers
  import opened Bytes

  /** Bytes of an encoded instruction. */
  const INSTRUCTION_LEN := 8
  /** Most instructions the kernel takes in one filter. */
  const MAX_INSNS := 4096

  datatype RawInsn = RawInsn(code: u16, jt: byte, jf: byte, k: u32)

  function Encode(e: Endian, insn: RawInsn): (s: seq<byte>)
    ensures |s| == INSTRUCTION_LEN
  {
    Bytes2(e, insn.code) + [insn.jt, insn.jf] + Bytes4(e, insn.k)
  }

  function Slots(e: Endian, insns: seq<RawInsn>): seq<seq<byte>> {
    seq(|insns|, i requires 0 <= i < |insns| => Encode(e, insns[i]))
  }

  function EncodeAll(e: Endian, insns: seq<RawInsn>): (s: seq<byte>)
    ensures |s| == INSTRUCTION_LEN * |insns|
  {
    ConcatLength(Slots(e, insns));
    SlotOffset(Slots(e, insns), |insns|);
    Concat(Slots(e, insns))
  }

  lemma {:induction false} SlotOffset(slots: seq<seq<byte>>, i: nat)
    requires i <= |slots| && forall slot | slot in slots :: |slot| == INSTRUCTION_LEN
    ensures Offset(slots, i) == 8 * i
  {
    if i > 0 { SlotOffset(slots, i - 1); }
  }

  function Decode(e: Endian, s: seq<byte>): RawInsn
    requires |s| == INSTRUCTION_LEN
  {
    RawInsn(Read2(e, s[..2]), s[2], s[3], Read4(e, s[4..]))
  }

  function Length(image: seq<byte>): nat {
    |image| / INSTRUCTION_LEN
  }

  function DecodeAt(e: Endian, image: seq<byte>, pc: nat): RawInsn
    requires pc < Length(image)
  {
    Decode(e, image[INSTRUCTION_LEN * pc..INSTRUCTION_LEN * pc + INSTRUCTION_LEN])
  }

  lemma SlotBytes(slots: seq<seq<byte>>, pc: nat)
    requires pc < |slots| && forall slot | slot in slots :: |slot| == INSTRUCTION_LEN
    ensures 8 * pc + 8 <= |Concat(slots)| && Concat(slots)[8 * pc..8 * pc + 8] == slots[pc]
  {
    SlotAt(slots, pc);
    SlotOffset(slots, pc);
    SlotOffset(slots, pc + 1);
  }

  lemma EncodedAt(e: Endian, insns: seq<RawInsn>, pc: nat)
    requires pc < |insns|
    ensures EncodeAll(e, insns)[8 * pc..8 * pc + 8] == Encode(e, insns[pc])
  {
    SlotBytes(Slots(e, insns), pc);
  }

  /** Where the fields of `struct sock_filter` are in the image, byte by byte: two bytes of code, the two jump offsets,
      four bytes of operand, in the host's order. */
  lemma ImageLayout(e: Endian, insns: seq<RawInsn>, pc: nat)
    requires pc < |insns|
    ensures |EncodeAll(e, insns)| == 8 * |insns|
    ensures var image, insn, at := EncodeAll(e, insns), insns[pc], 8 * pc;
      && insn.code as int == (if e.Little? then Weighed2(image[at], image[at + 1])
                              else Weighed2(image[at + 1], image[at]))
      && insn.jt == image[at + 2] && insn.jf == image[at + 3]
      && insn.k as int == (if e.Little? then Weighed4(image[at + 4], image[at + 5], image[at + 6], image[at + 7])
                           else Weighed4(image[at + 7], image[at + 6], image[at + 5], image[at + 4]))
  {
    EncodedAt(e, insns, pc);
    Bytes2Weigh(insns[pc].code);
    Bytes4Weigh(insns[pc].k);
    var slot := EncodeAll(e, insns)[8 * pc..8 * pc + 8];
    forall i: nat | i < 8
      ensures EncodeAll(e, insns)[8 * pc + i] == Encode(e, insns[pc])[i]
    {
      assert slot[i] == Encode(e, insns[pc])[i];
    }
  }

  /** Decoding is the inverse of encoding, at every position of the image. */
  lemma DecodeEncoded(e: Endian, insns: seq<RawInsn>, pc: nat)
    requires pc < |insns|
    ensures DecodeAt(e, EncodeAll(e, insns), pc) == insns[pc]
  {
    EncodedAt(e, insns, pc);
  }

  /** `struct seccomp_data` as its 16 words: `nr`, `arch`, then the instruction
      pointer and the arguments. */
  type SeccompData = s: seq<u32> | |s| == 16 witness seq(16, _ => 0)

  datatype Outcome = Return(value: u32) | Fault

  /** Where one instruction leads: on to another one with a new accumulator, or
      out of the program. */
  datatype Next = Goto(pc: nat, acc: u32) | Exit(outcome: Outcome)

  /** One instruction, by the kernel's numbers for the five classes that count here: load a word of the
      call data, jump if equal, jump if at least, jump, return. Offsets are unsigned, so a jump can only go
      forward; any other instruction is a fault. */
  function Step(insn: RawInsn, data: SeccompData, pc: nat, acc: u32): (n: Next)
    ensures n.Goto? ==> pc < n.pc
  {
    if insn.code == 0x20 then
      if insn.k % 4 == 0 && insn.k / 4 < 16 then Goto(pc + 1, data[insn.k / 4]) else Exit(Fault)
    else if insn.code == 0x15 then Goto(pc + 1 + (if acc == insn.k then insn.jt else insn.jf), acc)
    else if insn.code == 0x35 then Goto(pc + 1 + (if acc >= insn.k then insn.jt else insn.jf), acc)
    else if insn.code == 0x05 then Goto(pc + 1 + insn.k, acc)
    else if insn.code == 0x06 then Exit(Return(insn.k))
    else Exit(Fault)
  }

  /** Runs the image from instruction `pc`; running off its end is a fault. */
  function Run(e: Endian, image: seq<byte>, data: SeccompData, pc: nat, acc: u32): Outcome
    decreases Length(image) - pc
  {
    if pc >= Length(image) then Fault
    else
      match Step(DecodeAt(e, image, pc), data, pc, acc)
      case Goto(pc', acc') => Run(e, image, data, pc', acc')
      case Exit(outcome) => outcome
  }

  /** The same run over decoded instructions. */
  function RunInsns(insns: seq<RawInsn>, data: SeccompData, pc: nat, acc: u32): Outcome
    decreases |insns| - pc
  {
    if pc >= |insns| then Fault
    else
      match Step(insns[pc], data, pc, acc)
      case Goto(pc', acc') => RunInsns(insns, data, pc', acc')
      case Exit(outcome) => outcome
  }

  /** Running an encoded program is running its instructions. */
  lemma {:induction false} RunEncoded(e: Endian, insns: seq<RawInsn>, data: SeccompData, pc: nat, acc: u32)
    ensures Run(e, EncodeAll(e, insns), data, pc, acc) == RunInsns(insns, data, pc, acc)
    decreases |insns| - pc
  {
    if pc < |insns| {
      DecodeEncoded(e, insns, pc);
      match Step(insns[pc], data, pc, acc)
      case Goto(pc', acc') => RunEncoded(e, insns, data, pc', acc');
      case Exit(_) =>
    }
  }

  /** What the kernel checks before it takes a filter: not too many
      instructions, every jump inside, every load inside, a return at the end. */
  ghost predicate LoadableInsns(insns: seq<RawInsn>) {
    && 0 < |insns| <= MAX_INSNS
    && insns[|insns| - 1].code == 0x06
    && forall pc: nat | pc < |insns| :: Checked(insns[pc], pc, |insns|)
  }

  function DecodeAll(e: Endian, image: seq<byte>): seq<RawInsn> {
    seq(Length(image), pc requires 0 <= pc < Length(image) => DecodeAt(e, image, pc))
  }

  ghost predicate Loadable(e: Endian, image: seq<byte>) {
    |image| % INSTRUCTION_LEN == 0 && LoadableInsns(DecodeAll(e, image))
  }

  lemma DecodeAllEncoded(e: Endian, insns: seq<RawInsn>)
    ensures DecodeAll(e, EncodeAll(e, insns)) == insns
  {
    forall pc: nat | pc < |insns| ensures DecodeAll(e, EncodeAll(e, insns))[pc] == insns[pc] {
      DecodeEncoded(e, insns, pc);
    }
  }

  predicate Checked(insn: RawInsn, pc: nat, length: nat) {
    || (insn.code == 0x20 && insn.k % 4 == 0 && insn.k / 4 < 16)
    || (insn.code in {0x15, 0x35} && pc + 1 + insn.jt < length && pc + 1 + insn.jf < length)
    || (insn.code == 0x05 && pc + 1 + insn.k < length)
    || insn.code == 0x06
  }

  /** A filter the kernel takes always returns a verdict. */
  lemma {:induction false} LoadableHalts(e: Endian, image: seq<byte>, data: SeccompData, pc: nat, acc: u32)
    requires Loadable(e, image) && pc < Length(image)
    ensures Run(e, image, data, pc, acc).Return?
    decreases Length(image) - pc
  {
    var insns := DecodeAll(e, image);
    match Step(insns[pc], data, pc, acc)
    case Goto(pc', acc') => LoadableHalts(e, image, data, pc', acc');
    case Exit(_) =>
  }
}
