/** The assembler of the sandbox's system-call filter, and its correctness: the
    emitted bytes, run as BPF, give the verdict of the refusal tables. */
module Seccomp {
  import opened Wrappers
  import opened Bytes
  import opened Bpf

  // Instruction classes the filter uses.
  const LD_W_ABS: u16 := 0x20
  const JEQ_K: u16 := 0x15
  const JGE_K: u16 := 0x35
  const JA: u16 := 0x05
  const RET_K: u16 := 0x06

  // Words of `struct seccomp_data` the filter loads, by byte offset.
  const DATA_NR: u32 := 0
  const DATA_ARCH: u32 := 4

  const ARCH_X86_64: u32 := 0xc000_003e
  const ARCH_I386: u32 := 0x4000_0003
  const ARCH_AARCH64: u32 := 0xc000_00b7
  const ARCHES: seq<u32> := [ARCH_X86_64, ARCH_I386, ARCH_AARCH64]

  /** x32 calls are the x86-64 numbers with this bit set. */
  const X32_BIT: u32 := 0x4000_0000

  const RET_ALLOW: u32 := 0x7fff_0000
  // RET_ERRNO with the error number in its low bits.
  const RET_EPERM: u32 := 0x0005_0000 + 1
  const RET_ENOSYS: u32 := 0x0005_0000 + 38

  /** A table entry: what a system call is numbered on each of the three ABIs, if it exists there. */
  datatype Refused = Refused(x86_64: Option<u32>, i386: Option<u32>, generic: Option<u32>)

  function NumberFor(refused: Refused, arch: u32): Option<u32> {
    if arch == ARCH_X86_64 then refused.x86_64
    else if arch == ARCH_I386 then refused.i386
    else refused.generic
  }

  // ---------------------------------------------------------------- the tables

  predicate Refuses(table: seq<Refused>, arch: u32, nr: u32) {
    exists r | r in table :: NumberFor(r, arch) == Some(nr)
  }

  /** What a table pair says about a call, with no reference to any program. */
  function Verdict(eperm: seq<Refused>, enosys: seq<Refused>, arch: u32, nr: u32): u32 {
    if arch !in ARCHES then RET_ALLOW
    else if arch == ARCH_X86_64 && nr >= X32_BIT then RET_EPERM
    else if Refuses(eperm, arch, nr) then RET_EPERM
    else if Refuses(enosys, arch, nr) then RET_ENOSYS
    else RET_ALLOW
  }

  function Count(table: seq<Refused>, arch: u32): nat {
    if table == [] then 0
    else (if NumberFor(table[0], arch).Some? then 1 else 0) + Count(table[1..], arch)
  }

  /** Numbers in both tables over all ABIs: one conditional jump each. */
  function Total(eperm: seq<Refused>, enosys: seq<Refused>): nat {
    Count(eperm, ARCH_X86_64) + Count(enosys, ARCH_X86_64)
    + Count(eperm, ARCH_I386) + Count(enosys, ARCH_I386)
    + Count(eperm, ARCH_AARCH64) + Count(enosys, ARCH_AARCH64)
  }

  // -------------------------------------------------------- the tables, column by column

  function Answer(eperm: bool, enosys: bool): Outcome {
    Return(if eperm then 0x0005_0001 else if enosys then 0x0005_0026 else 0x7fff_0000)
  }

  /** What a call gets, in the kernel's own numbers: the error of the table that has its number in the column of its
      architecture (i386, x86-64 or, on AArch64, the generic one), or leave. */
  ghost predicate ByColumns(outcome: Outcome, eperm: seq<Refused>, enosys: seq<Refused>, arch: u32, nr: u32) {
    && (arch == 0x4000_0003 ==>
          outcome == Answer(exists r :: r in eperm && r.i386 == Some(nr),
                            exists r :: r in enosys && r.i386 == Some(nr)))
    && (arch == 0xc000_003e && nr < 0x4000_0000 ==>
          outcome == Answer(exists r :: r in eperm && r.x86_64 == Some(nr),
                            exists r :: r in enosys && r.x86_64 == Some(nr)))
    && (arch == 0xc000_003e && nr >= 0x4000_0000 ==> outcome == Answer(true, false))
    && (arch == 0xc000_00b7 ==>
          outcome == Answer(exists r :: r in eperm && r.generic == Some(nr),
                            exists r :: r in enosys && r.generic == Some(nr)))
    && (arch !in {0x4000_0003, 0xc000_003e, 0xc000_00b7} ==> outcome == Answer(false, false))
  }

  lemma VerdictByColumns(eperm: seq<Refused>, enosys: seq<Refused>, arch: u32, nr: u32)
    ensures ByColumns(Return(Verdict(eperm, enosys, arch, nr)), eperm, enosys, arch, nr)
  {
    forall table | table in {eperm, enosys}
      ensures arch == ARCH_I386 ==> (Refuses(table, arch, nr) <==> exists r :: r in table && r.i386 == Some(nr))
      ensures arch == ARCH_X86_64 ==> (Refuses(table, arch, nr) <==> exists r :: r in table && r.x86_64 == Some(nr))
      ensures arch == ARCH_AARCH64 ==> (Refuses(table, arch, nr) <==> exists r :: r in table && r.generic == Some(nr))
    {
    }
  }

  function Filled(number: Option<u32>): nat { if number.Some? then 1 else 0 }

  /** How many numbers a table has, in any column. */
  function Numbers(table: seq<Refused>): nat {
    if table == [] then 0
    else Filled(table[0].x86_64) + Filled(table[0].i386) + Filled(table[0].generic) + Numbers(table[1..])
  }

  lemma {:induction false} CountNumbers(table: seq<Refused>)
    ensures Count(table, ARCH_X86_64) + Count(table, ARCH_I386) + Count(table, ARCH_AARCH64) == Numbers(table)
  {
    if table != [] { CountNumbers(table[1..]); }
  }

  lemma TotalNumbers(eperm: seq<Refused>, enosys: seq<Refused>)
    ensures Total(eperm, enosys) == Numbers(eperm) + Numbers(enosys)
  {
    CountNumbers(eperm);
    CountNumbers(enosys);
  }

  /** Most numbers the tables can hold before a jump no longer fits its byte. */
  const MAX_NUMBERS := 249

  // ------------------------------------------------------- the symbolic program

  datatype Target = Allow | Eperm | Enosys | Arch(index: nat) | NoTarget

  /** An instruction whose taken branch is a label; the other branch is the next
      instruction. */
  datatype Instruction = Instruction(code: u16, k: u32, target: Target)

  function Jump(refused: Refused, arch: u32, target: Target): seq<Instruction> {
    match NumberFor(refused, arch)
    case Some(number) => [Instruction(JEQ_K, number, target)]
    case None => []
  }

  function Jumps(table: seq<Refused>, arch: u32, target: Target): (s: seq<Instruction>)
    ensures |s| == Count(table, arch)
    ensures forall i | 0 <= i < |s| :: s[i].code == JEQ_K && s[i].target == target
  {
    if table == [] then [] else Jump(table[0], arch, target) + Jumps(table[1..], arch, target)
  }

  lemma {:induction false} JumpsSnoc(front: seq<Refused>, last: Refused, arch: u32, target: Target)
    ensures Jumps(front + [last], arch, target) == Jumps(front, arch, target) + Jump(last, arch, target)
  {
    if front == [] {
      assert [last][1..] == [];
    } else {
      JumpsSnoc(front[1..], last, arch, target);
      assert (front + [last])[1..] == front[1..] + [last];
    }
  }

  function Dispatch(): seq<Instruction> {
    [Instruction(LD_W_ABS, DATA_ARCH, NoTarget),
     Instruction(JEQ_K, ARCHES[0], Arch(0)),
     Instruction(JEQ_K, ARCHES[1], Arch(1)),
     Instruction(JEQ_K, ARCHES[2], Arch(2)),
     Instruction(JA, 0, Allow)]
  }

  function BlockHead(arch: u32): seq<Instruction> {
    [Instruction(LD_W_ABS, DATA_NR, NoTarget)]
    + if arch == ARCH_X86_64 then [Instruction(JGE_K, X32_BIT, Eperm)] else []
  }

  const ALLOW_REST := Instruction(JA, 0, Allow)

  function Block(eperm: seq<Refused>, enosys: seq<Refused>, arch: u32): (s: seq<Instruction>) {
    BlockHead(arch) + Jumps(eperm, arch, Eperm) + Jumps(enosys, arch, Enosys)
    + [ALLOW_REST]
  }

  function Returns(): seq<Instruction> {
    [Instruction(RET_K, RET_ALLOW, NoTarget),
     Instruction(RET_K, RET_EPERM, NoTarget),
     Instruction(RET_K, RET_ENOSYS, NoTarget)]
  }

  function Program(eperm: seq<Refused>, enosys: seq<Refused>): seq<Instruction> {
    Dispatch() + Block(eperm, enosys, ARCHES[0]) + Block(eperm, enosys, ARCHES[1])
    + Block(eperm, enosys, ARCHES[2]) + Returns()
  }

  /** Where the labels are. */
  datatype Layout = Layout(blocks: seq<nat>, allow: nat)

  function Resolve(layout: Layout, target: Target): nat {
    match target
    case Allow => layout.allow
    case Eperm => layout.allow + 1
    case Enosys => layout.allow + 2
    case Arch(index) => if index < |layout.blocks| then layout.blocks[index] else 0
    case NoTarget => 0
  }

  function LayoutOf(eperm: seq<Refused>, enosys: seq<Refused>): Layout {
    var b0 := |Dispatch()|;
    var b1 := b0 + |Block(eperm, enosys, ARCHES[0])|;
    var b2 := b1 + |Block(eperm, enosys, ARCHES[1])|;
    Layout([b0, b1, b2], b2 + |Block(eperm, enosys, ARCHES[2])|)
  }

  predicate Conditional(insn: Instruction) {
    insn.target != NoTarget && insn.code != JA
  }

  function Distance(layout: Layout, insn: Instruction, index: nat): int {
    Resolve(layout, insn.target) - (index + 1)
  }

  /** No distance underflows; the conditional ones are at most what the tables
      add up to and the one of the x32 test is exactly that. */
  lemma Distances(eperm: seq<Refused>, enosys: seq<Refused>, index: nat)
    requires index < |Program(eperm, enosys)|
    ensures var insn := Program(eperm, enosys)[index];
            var d := Distance(LayoutOf(eperm, enosys), insn, index);
            && (insn.target != NoTarget ==> 0 <= d)
            && (Conditional(insn) ==> d <= Total(eperm, enosys) + 6)
            && (insn.target != NoTarget ==> d < Total(eperm, enosys) + 15 - (index + 1))
    ensures var insn := Program(eperm, enosys)[6];
            Conditional(insn) && Distance(LayoutOf(eperm, enosys), insn, 6) == Total(eperm, enosys) + 6
  {
    var p, layout := Program(eperm, enosys), LayoutOf(eperm, enosys);
    assert p[6] == Instruction(JGE_K, X32_BIT, Eperm);
    assert p[5] == Instruction(LD_W_ABS, DATA_NR, NoTarget);
    if 5 <= index < layout.allow {
      InBlock(eperm, enosys, index);
    } else if layout.allow <= index {
      assert p[index] == Returns()[index - layout.allow];
    } else {
      assert p[index] == Dispatch()[index];
    }
  }

  lemma InBlock(eperm: seq<Refused>, enosys: seq<Refused>, index: nat)
    requires 5 <= index < LayoutOf(eperm, enosys).allow
    ensures Program(eperm, enosys)[index].target in {NoTarget, Allow, Eperm, Enosys}
  {
    var layout := LayoutOf(eperm, enosys);
    var n := if index < layout.blocks[1] then 0 else if index < layout.blocks[2] then 1 else 2;
    InParts(Dispatch(), Block(eperm, enosys, ARCHES[0]), Block(eperm, enosys, ARCHES[1]),
            Block(eperm, enosys, ARCHES[2]), Returns(), index);
    BlockTargets(eperm, enosys, ARCHES[n], index - layout.blocks[n]);
  }

  lemma InParts<T>(a: seq<T>, b: seq<T>, c: seq<T>, d: seq<T>, e: seq<T>, index: nat)
    requires index < |a| + |b| + |c| + |d| + |e|
    ensures (a + b + c + d + e)[index] ==
      if index < |a| then a[index]
      else if index < |a| + |b| then b[index - |a|]
      else if index < |a| + |b| + |c| then c[index - |a| - |b|]
      else if index < |a| + |b| + |c| + |d| then d[index - |a| - |b| - |c|]
      else e[index - |a| - |b| - |c| - |d|]
  {
  }

  lemma BlockTargets(eperm: seq<Refused>, enosys: seq<Refused>, arch: u32, i: nat)
    requires i < |Block(eperm, enosys, arch)|
    ensures Block(eperm, enosys, arch)[i].target in {NoTarget, Allow, Eperm, Enosys}
  {
    var head, eps, ens := BlockHead(arch), Jumps(eperm, arch, Eperm), Jumps(enosys, arch, Enosys);
    var block := head + eps + ens + [ALLOW_REST];
    if i < |head| {
      assert block[i] == head[i];
    } else if i < |head| + |eps| {
      assert block[i] == eps[i - |head|];
    } else if i < |head| + |eps| + |ens| {
      assert block[i] == ens[i - |head| - |eps|];
    }
  }

  // ------------------------------------------------------------------ emission

  predicate Fits(layout: Layout, insn: Instruction, index: nat) {
    insn.target != NoTarget ==>
      0 <= Distance(layout, insn, index) && (insn.code != JA ==> Distance(layout, insn, index) <= 0xff)
  }

  /** An instruction with its label resolved: the distance goes to `k` for `JA`, to
      `jt` for the conditional ones. */
  function Emit(layout: Layout, insn: Instruction, index: nat): RawInsn
    requires Fits(layout, insn, index)
  {
    if insn.target == NoTarget then RawInsn(insn.code, 0, 0, insn.k)
    else if insn.code == JA then
      RawInsn(JA, 0, 0, Distance(layout, insn, index) % 0x1_0000_0000)
    else RawInsn(insn.code, Distance(layout, insn, index), 0, insn.k)
  }

  ghost predicate AllFit(eperm: seq<Refused>, enosys: seq<Refused>) {
    forall i | 0 <= i < |Program(eperm, enosys)| ::
      Fits(LayoutOf(eperm, enosys), Program(eperm, enosys)[i], i)
  }

  /** Every jump is in reach exactly when the tables hold at most 249 numbers. */
  lemma FitExactly(eperm: seq<Refused>, enosys: seq<Refused>)
    ensures AllFit(eperm, enosys) <==> Total(eperm, enosys) <= MAX_NUMBERS
  {
    forall i | 0 <= i < |Program(eperm, enosys)| && Total(eperm, enosys) <= MAX_NUMBERS
      ensures Fits(LayoutOf(eperm, enosys), Program(eperm, enosys)[i], i)
    {
      Distances(eperm, enosys, i);
    }
    if AllFit(eperm, enosys) {
      Distances(eperm, enosys, 6);
      assert Fits(LayoutOf(eperm, enosys), Program(eperm, enosys)[6], 6);
    }
  }

  ghost function Emitted(eperm: seq<Refused>, enosys: seq<Refused>): seq<RawInsn>
    requires AllFit(eperm, enosys)
  {
    EmittedOf(Program(eperm, enosys), LayoutOf(eperm, enosys))
  }

  datatype AssembleError = JumpOutOfReach(distance: int)

  method BuildDispatch() returns (program: seq<Instruction>)
    ensures program == Dispatch()
  {
    program := [Instruction(LD_W_ABS, DATA_ARCH, NoTarget)];
    for i := 0 to |ARCHES|
      invariant program == Dispatch()[..1 + i]
    {
      program := program + [Instruction(JEQ_K, ARCHES[i], Arch(i))];
    }
    program := program + [Instruction(JA, 0, Allow)];
  }

  /** First pass: the symbolic program and where its labels are. */
  method BuildProgram(eperm: seq<Refused>, enosys: seq<Refused>)
    returns (program: seq<Instruction>, layout: Layout)
    ensures program == Program(eperm, enosys) && layout == LayoutOf(eperm, enosys)
  {
    program := BuildDispatch();
    var blocks: seq<nat> := [];
    for index := 0 to |ARCHES|
      invariant |blocks| == index
      invariant forall i | 0 <= i < index :: blocks[i] == |ProgramUpTo(eperm, enosys, i)|
      invariant program == ProgramUpTo(eperm, enosys, index)
    {
      blocks := blocks + [|program|];
      program := PushBlock(program, eperm, enosys, ARCHES[index]);
    }

    layout := Layout(blocks, |program|);
    program := program + Returns();
    ProgramParts(eperm, enosys);
  }

  method PushBlock(before: seq<Instruction>, eperm: seq<Refused>, enosys: seq<Refused>, arch: u32)
    returns (program: seq<Instruction>)
    ensures program == before + Block(eperm, enosys, arch)
  {
    program := before + [Instruction(LD_W_ABS, DATA_NR, NoTarget)];
    if arch == ARCH_X86_64 {
      program := program + [Instruction(JGE_K, X32_BIT, Eperm)];
    }
    program := PushJumps(program, eperm, arch, Eperm);
    program := PushJumps(program, enosys, arch, Enosys);
    program := program + [ALLOW_REST];
  }

  /** Assembles the filter for the two tables, in the host's byte order. The
      bytes return the tables' verdict for every call in every ABI. */
  method FilterBytes(e: Endian, eperm: seq<Refused>, enosys: seq<Refused>)
    returns (result: Result<seq<byte>, AssembleError>)
    ensures result.Ok? <==> Total(eperm, enosys) <= MAX_NUMBERS
    ensures result.Ok? ==> Loadable(e, result.value)
    ensures result.Ok? ==> forall data: SeccompData ::
              Run(e, result.value, data, 0, 0) == Return(Verdict(eperm, enosys, data[1], data[0]))
    ensures result.Ok? <==> Numbers(eperm) + Numbers(enosys) <= 249
    ensures result.Ok? ==> forall data: SeccompData ::
              ByColumns(Run(e, result.value, data, 0, 0), eperm, enosys, data[1], data[0])
    ensures result.Err? ==> result.error.distance > 0xff
  {
    TotalNumbers(eperm, enosys);
    forall data: SeccompData
      ensures ByColumns(Return(Verdict(eperm, enosys, data[1], data[0])), eperm, enosys, data[1], data[0])
    {
      VerdictByColumns(eperm, enosys, data[1], data[0]);
    }
    var program, layout := BuildProgram(eperm, enosys);
    forall i | 0 <= i < |program| && program[i].target != NoTarget
      ensures 0 <= Distance(layout, program[i], i)
    {
      Distances(eperm, enosys, i);
    }
    result := EncodeProgram(e, program, layout);
    FitExactly(eperm, enosys);
    if result.Ok? {
      assert EmittedOf(program, layout) == Emitted(eperm, enosys);
      Assembled(e, eperm, enosys);
    }
  }

  ghost function EmittedOf(program: seq<Instruction>, layout: Layout): seq<RawInsn>
    requires forall i | 0 <= i < |program| :: Fits(layout, program[i], i)
  {
    seq(|program|, i requires 0 <= i < |program| => Emit(layout, program[i], i))
  }

  // The first instructions, with their labels resolved.
  ghost predicate Resolved(program: seq<Instruction>, layout: Layout, raws: seq<RawInsn>) {
    && |raws| <= |program|
    && forall i | 0 <= i < |raws| :: Fits(layout, program[i], i) && raws[i] == Emit(layout, program[i], i)
  }

  lemma ResolvedSnoc(program: seq<Instruction>, layout: Layout, raws: seq<RawInsn>)
    requires Resolved(program, layout, raws) && |raws| < |program| && Fits(layout, program[|raws|], |raws|)
    ensures Resolved(program, layout, raws + [Emit(layout, program[|raws|], |raws|)])
  {
  }

  lemma ResolvedAll(program: seq<Instruction>, layout: Layout, raws: seq<RawInsn>)
    requires Resolved(program, layout, raws) && |raws| == |program|
    ensures forall i | 0 <= i < |program| :: Fits(layout, program[i], i)
    ensures raws == EmittedOf(program, layout)
  {
  }

  /** Second pass: resolves the labels and writes the bytes. */
  method EncodeProgram(e: Endian, program: seq<Instruction>, layout: Layout)
    returns (result: Result<seq<byte>, AssembleError>)
    requires forall i | 0 <= i < |program| && program[i].target != NoTarget ::
               0 <= Distance(layout, program[i], i)
    ensures result.Ok? <==> forall i | 0 <= i < |program| :: Fits(layout, program[i], i)
    ensures result.Ok? ==> result.value == EncodeAll(e, EmittedOf(program, layout))
    ensures result.Err? ==> result.error.distance > 0xff
  {
    var bytes: seq<byte> := [];
    ghost var raws: seq<RawInsn> := [];
    for index := 0 to |program|
      invariant |raws| == index && bytes == EncodeAll(e, raws) && Resolved(program, layout, raws)
    {
      var insn := program[index];
      if insn.target != NoTarget && insn.code != JA && Distance(layout, insn, index) > 0xff {
        assert !Fits(layout, program[index], index);
        return Err(JumpOutOfReach(Distance(layout, insn, index)));
      }
      var raw := Emit(layout, insn, index);
      EncodeSnoc(e, raws, raw);
      ResolvedSnoc(program, layout, raws);
      bytes := bytes + Encode(e, raw);
      raws := raws + [raw];
    }
    ResolvedAll(program, layout, raws);
    return Ok(bytes);
  }

  lemma Assembled(e: Endian, eperm: seq<Refused>, enosys: seq<Refused>)
    requires AllFit(eperm, enosys)
    ensures Loadable(e, EncodeAll(e, Emitted(eperm, enosys)))
    ensures forall data: SeccompData :: (
              Run(e, EncodeAll(e, Emitted(eperm, enosys)), data, 0, 0)
           == Return(Verdict(eperm, enosys, data[1], data[0])))
  {
    FilterLoadable(e, eperm, enosys);
    forall data: SeccompData
      ensures Run(e, EncodeAll(e, Emitted(eperm, enosys)), data, 0, 0)
           == Return(Verdict(eperm, enosys, data[1], data[0]))
    {
      FilterCorrect(e, eperm, enosys, data);
    }
  }

  ghost function ProgramUpTo(eperm: seq<Refused>, enosys: seq<Refused>, index: nat): seq<Instruction>
    requires index <= 3
  {
    if index == 0 then Dispatch()
    else ProgramUpTo(eperm, enosys, index - 1) + Block(eperm, enosys, ARCHES[index - 1])
  }

  lemma ProgramParts(eperm: seq<Refused>, enosys: seq<Refused>)
    ensures ProgramUpTo(eperm, enosys, 3) + Returns() == Program(eperm, enosys)
    ensures LayoutOf(eperm, enosys) ==
      Layout([|ProgramUpTo(eperm, enosys, 0)|, |ProgramUpTo(eperm, enosys, 1)|, |ProgramUpTo(eperm, enosys, 2)|],
             |ProgramUpTo(eperm, enosys, 3)|)
  {
    var d := Dispatch();
    assert ProgramUpTo(eperm, enosys, 1) == d + Block(eperm, enosys, ARCHES[0]);
    assert ProgramUpTo(eperm, enosys, 2) == d + Block(eperm, enosys, ARCHES[0]) + Block(eperm, enosys, ARCHES[1]);
  }

  /** Pushes one conditional jump for every number `table` has in `arch`. */
  method PushJumps(before: seq<Instruction>, table: seq<Refused>, arch: u32, target: Target)
    returns (program: seq<Instruction>)
    ensures program == before + Jumps(table, arch, target)
  {
    program := before;
    for i := 0 to |table|
      invariant program == before + Jumps(table[..i], arch, target)
    {
      JumpsSnoc(table[..i], table[i], arch, target);
      assert table[..i + 1] == table[..i] + [table[i]];
      match NumberFor(table[i], arch) {
        case Some(number) => program := program + [Instruction(JEQ_K, number, target)];
        case None =>
      }
    }
    assert table[..|table|] == table;
  }

  lemma EncodeSnoc(e: Endian, raws: seq<RawInsn>, raw: RawInsn)
    ensures EncodeAll(e, raws + [raw]) == EncodeAll(e, raws) + Encode(e, raw)
  {
    assert Slots(e, raws + [raw]) == Slots(e, raws) + [Encode(e, raw)];
    ConcatSnoc(Slots(e, raws), Encode(e, raw));
  }

  // --------------------------------------------------------------- correctness

  predicate WellShaped(insn: Instruction) {
    if insn.code == LD_W_ABS then insn.target == NoTarget && insn.k in {DATA_NR, DATA_ARCH}
    else if insn.code == RET_K then insn.target == NoTarget
    else insn.code in {JEQ_K, JGE_K, JA} && insn.target != NoTarget
  }

  /** Where a symbolic instruction leads. */
  function Branch(layout: Layout, insn: Instruction, data: SeccompData, pc: nat, acc: u32): Next
    requires WellShaped(insn)
  {
    if insn.code == LD_W_ABS then Goto(pc + 1, data[insn.k / 4])
    else if insn.code == RET_K then Exit(Return(insn.k))
    else
      var taken := insn.code == JA || (insn.code == JEQ_K && acc == insn.k)
                   || (insn.code == JGE_K && acc >= insn.k);
      Goto(if taken then Resolve(layout, insn.target) else pc + 1, acc)
  }

  /** The emitted instruction does what the symbolic one says. */
  lemma EmitStep(layout: Layout, insn: Instruction, data: SeccompData, pc: nat, acc: u32)
    requires Fits(layout, insn, pc) && WellShaped(insn)
    requires insn.target != NoTarget ==> Distance(layout, insn, pc) < 0x1_0000_0000
    ensures Step(Emit(layout, insn, pc), data, pc, acc) == Branch(layout, insn, data, pc, acc)
  {
  }

  /** A symbolic program on one call. `run` gives what a run from an instruction
      on returns; `Valid` says it follows the symbolic branches. */
  datatype Setup = Setup(insns: seq<Instruction>, layout: Layout, data: SeccompData,
                         run: (nat, u32) -> Outcome) {
    ghost predicate Valid() {
      forall pc: nat, acc: u32 | pc < |insns| :: Follows(pc, acc)
    }

    ghost predicate Follows(pc: nat, acc: u32)
      requires pc < |insns|
    {
      WellShaped(insns[pc]) ==>
        match Branch(layout, insns[pc], data, pc, acc)
        case Goto(pc', acc') => run(pc, acc) == run(pc', acc')
        case Exit(outcome) => run(pc, acc) == outcome
    }

    ghost function At(target: Target): nat { Resolve(layout, target) }

    /** `part` is what the program holds at `at`. */
    ghost predicate Holds(at: nat, part: seq<Instruction>) {
      at + |part| <= |insns| && insns[at..at + |part|] == part
    }
  }

  lemma HeldAt(x: Setup, at: nat, part: seq<Instruction>, i: nat)
    requires x.Holds(at, part) && i < |part|
    ensures at + i < |x.insns| && x.insns[at + i] == part[i]
  {
    assert x.insns[at..at + |part|][i] == part[i];
  }

  /** The interpreter on the emitted instructions takes the symbolic branches. */
  lemma EmittedFollows(x: Setup, raws: seq<RawInsn>)
    requires forall i | 0 <= i < |x.insns| ::
               && Fits(x.layout, x.insns[i], i)
               && (x.insns[i].target != NoTarget ==> Distance(x.layout, x.insns[i], i) < 0x1_0000_0000)
    requires raws == EmittedOf(x.insns, x.layout)
    requires forall pc: nat, acc: u32 :: x.run(pc, acc) == RunInsns(raws, x.data, pc, acc)
    ensures x.Valid()
  {
    forall pc: nat, acc: u32 | pc < |x.insns| ensures x.Follows(pc, acc) {
      if WellShaped(x.insns[pc]) {
        EmitStep(x.layout, x.insns[pc], x.data, pc, acc);
      }
    }
  }

  lemma RefusesCons(first: Refused, rest: seq<Refused>, arch: u32, nr: u32)
    ensures Refuses([first] + rest, arch, nr)
       <==> NumberFor(first, arch) == Some(nr) || Refuses(rest, arch, nr)
  {
    if NumberFor(first, arch) == Some(nr) {
      assert first in [first] + rest;
    } else if Refuses(rest, arch, nr) {
      var r :| r in rest && NumberFor(r, arch) == Some(nr);
      assert r in [first] + rest;
    }
  }

  lemma ScanOne(x: Setup, at: nat, refused: Refused, arch: u32, target: Target, acc: u32)
    requires x.Valid() && target != NoTarget && x.Holds(at, Jump(refused, arch, target))
    ensures x.run(at, acc)
         == x.run(if NumberFor(refused, arch) == Some(acc) then x.At(target)
                  else at + |Jump(refused, arch, target)|, acc)
  {
    var head := Jump(refused, arch, target);
    if |head| == 1 {
      HeldAt(x, at, head, 0);
      assert x.Follows(at, acc);
    }
  }

  /** A run of table jumps leaves for the label on a match and falls through
      otherwise. */
  lemma {:induction false} Scan(x: Setup, at: nat, table: seq<Refused>, arch: u32, target: Target, acc: u32)
    requires x.Valid() && target != NoTarget && x.Holds(at, Jumps(table, arch, target))
    ensures x.run(at, acc)
         == x.run(if Refuses(table, arch, acc) then x.At(target) else at + Count(table, arch), acc)
    decreases |table|
  {
    if table != [] {
      var first, rest := table[0], table[1..];
      var head, tail := Jump(first, arch, target), Jumps(rest, arch, target);
      assert table == [first] + rest;
      RefusesCons(first, rest, arch, acc);
      HoldsTail(x, at, head, tail);
      ScanOne(x, at, first, arch, target, acc);
      Scan(x, at + |head|, rest, arch, target, acc);
      assert Count(table, arch) == |head| + Count(rest, arch);
    }
  }

  lemma HoldsTail(x: Setup, at: nat, head: seq<Instruction>, tail: seq<Instruction>)
    requires x.Holds(at, head + tail)
    ensures x.Holds(at, head) && x.Holds(at + |head|, tail)
  {
    var all := x.insns[at..at + |head + tail|];
    assert all[..|head|] == head && all[|head|..] == tail;
    assert x.insns[at..at + |head|] == all[..|head|];
    assert x.insns[at + |head|..at + |head| + |tail|] == all[|head|..];
  }

  /** The three verdicts are where the labels say. */
  ghost predicate VerdictsPlaced(x: Setup) {
    x.Holds(x.layout.allow, Returns())
  }

  lemma Verdicts(x: Setup, acc: u32)
    requires x.Valid() && VerdictsPlaced(x)
    ensures x.run(x.At(Allow), acc) == Return(RET_ALLOW)
    ensures x.run(x.At(Eperm), acc) == Return(RET_EPERM)
    ensures x.run(x.At(Enosys), acc) == Return(RET_ENOSYS)
  {
    var allow := x.layout.allow;
    HeldAt(x, allow, Returns(), 0);
    HeldAt(x, allow, Returns(), 1);
    HeldAt(x, allow, Returns(), 2);
    assert x.Follows(allow, acc);
    assert x.Follows(allow + 1, acc);
    assert x.Follows(allow + 2, acc);
  }

  /** The last table of a block, and the jump that ends it. */
  lemma EnosysCorrect(x: Setup, at: nat, enosys: seq<Refused>, arch: u32, nr: u32)
    requires x.Valid() && VerdictsPlaced(x)
    requires x.Holds(at, Jumps(enosys, arch, Enosys) + [ALLOW_REST])
    ensures x.run(at, nr) == Return(if Refuses(enosys, arch, nr) then RET_ENOSYS else RET_ALLOW)
  {
    var ens := Jumps(enosys, arch, Enosys);
    HoldsTail(x, at, ens, [ALLOW_REST]);
    HeldAt(x, at + |ens|, [ALLOW_REST], 0);
    Verdicts(x, nr);
    assert x.Follows(at + |ens|, nr);
    Scan(x, at, enosys, arch, Enosys, nr);
  }

  // The first table of a block.
  lemma EpermCorrect(x: Setup, at: nat, eperm: seq<Refused>, arch: u32, nr: u32)
    requires x.Valid() && VerdictsPlaced(x) && x.Holds(at, Jumps(eperm, arch, Eperm))
    ensures x.run(at, nr)
         == if Refuses(eperm, arch, nr) then Return(RET_EPERM) else x.run(at + Count(eperm, arch), nr)
  {
    Verdicts(x, nr);
    Scan(x, at, eperm, arch, Eperm, nr);
  }

  /** The tables' part of a block. */
  lemma TablesCorrect(x: Setup, at: nat, eperm: seq<Refused>, enosys: seq<Refused>, arch: u32, nr: u32)
    requires x.Valid() && VerdictsPlaced(x)
    requires x.Holds(at, Jumps(eperm, arch, Eperm) + (Jumps(enosys, arch, Enosys) + [ALLOW_REST]))
    ensures x.run(at, nr) == Return(
              if Refuses(eperm, arch, nr) then RET_EPERM
              else if Refuses(enosys, arch, nr) then RET_ENOSYS
              else RET_ALLOW)
  {
    var eps := Jumps(eperm, arch, Eperm);
    HoldsTail(x, at, eps, Jumps(enosys, arch, Enosys) + [ALLOW_REST]);
    EnosysCorrect(x, at + |eps|, enosys, arch, nr);
    EpermCorrect(x, at, eperm, arch, nr);
  }

  /** The start of a block: it loads the number and refuses x32 calls. */
  lemma HeadCorrect(x: Setup, at: nat, arch: u32, acc: u32)
    requires x.Valid() && VerdictsPlaced(x) && x.Holds(at, BlockHead(arch))
    ensures x.run(at, acc)
         == if arch == ARCH_X86_64 && x.data[0] >= X32_BIT then Return(RET_EPERM)
            else x.run(at + |BlockHead(arch)|, x.data[0])
  {
    HeldAt(x, at, BlockHead(arch), 0);
    assert x.Follows(at, acc);
    if arch == ARCH_X86_64 {
      HeldAt(x, at, BlockHead(arch), 1);
      assert x.Follows(at + 1, x.data[0]);
      Verdicts(x, x.data[0]);
    }
  }

  /** The block of a known ABI gives that ABI's verdict on the call number. */
  lemma BlockCorrect(x: Setup, at: nat, eperm: seq<Refused>, enosys: seq<Refused>, arch: u32, acc: u32)
    requires x.Valid() && VerdictsPlaced(x) && arch in ARCHES
    requires x.Holds(at, Block(eperm, enosys, arch))
    ensures x.run(at, acc) == Return(Verdict(eperm, enosys, arch, x.data[0]))
  {
    var head := BlockHead(arch);
    var rest := Jumps(eperm, arch, Eperm) + (Jumps(enosys, arch, Enosys) + [ALLOW_REST]);
    assert Block(eperm, enosys, arch) == head + rest;
    HoldsTail(x, at, head, rest);
    HeadCorrect(x, at, arch, acc);
    TablesCorrect(x, at + |head|, eperm, enosys, arch, x.data[0]);
  }

  /** Where the parts of the program are. */
  ghost predicate Placed(x: Setup, eperm: seq<Refused>, enosys: seq<Refused>) {
    && x.Holds(0, Dispatch()) && VerdictsPlaced(x)
    && x.Holds(x.At(Arch(0)), Block(eperm, enosys, ARCHES[0]))
    && x.Holds(x.At(Arch(1)), Block(eperm, enosys, ARCHES[1]))
    && x.Holds(x.At(Arch(2)), Block(eperm, enosys, ARCHES[2]))
  }

  /** The dispatch on the ABI, and with it the whole program. */
  lemma DispatchCorrect(x: Setup, eperm: seq<Refused>, enosys: seq<Refused>)
    requires x.Valid() && Placed(x, eperm, enosys)
    ensures x.run(0, 0) == Return(Verdict(eperm, enosys, x.data[1], x.data[0]))
  {
    var arch := x.data[1];
    HeldAt(x, 0, Dispatch(), 0);
    HeldAt(x, 0, Dispatch(), 1);
    HeldAt(x, 0, Dispatch(), 2);
    HeldAt(x, 0, Dispatch(), 3);
    HeldAt(x, 0, Dispatch(), 4);
    assert x.Follows(0, 0);
    assert x.Follows(1, arch);
    assert x.Follows(2, arch);
    assert x.Follows(3, arch);
    assert x.Follows(4, arch);
    Verdicts(x, arch);
    BlockCorrect(x, x.At(Arch(0)), eperm, enosys, ARCHES[0], arch);
    BlockCorrect(x, x.At(Arch(1)), eperm, enosys, ARCHES[1], arch);
    BlockCorrect(x, x.At(Arch(2)), eperm, enosys, ARCHES[2], arch);
  }

  lemma PlacedParts(x: Setup, d: seq<Instruction>, b0: seq<Instruction>, b1: seq<Instruction>,
                    b2: seq<Instruction>, r: seq<Instruction>)
    requires x.insns == d + b0 + b1 + b2 + r
    ensures x.Holds(0, d) && x.Holds(|d|, b0) && x.Holds(|d| + |b0|, b1)
    ensures x.Holds(|d| + |b0| + |b1|, b2) && x.Holds(|d| + |b0| + |b1| + |b2|, r)
  {
  }

  lemma LabelOffsets(layout: Layout, eperm: seq<Refused>, enosys: seq<Refused>)
    requires layout == LayoutOf(eperm, enosys)
    ensures
      var b0, b1 := Block(eperm, enosys, ARCHES[0]), Block(eperm, enosys, ARCHES[1]);
      var b2 := Block(eperm, enosys, ARCHES[2]);
      && Resolve(layout, Arch(0)) == |Dispatch()|
      && Resolve(layout, Arch(1)) == |Dispatch()| + |b0|
      && Resolve(layout, Arch(2)) == |Dispatch()| + |b0| + |b1|
      && layout.allow == |Dispatch()| + |b0| + |b1| + |b2|
  {
  }

  lemma ProgramPlaced(x: Setup, eperm: seq<Refused>, enosys: seq<Refused>)
    requires x.insns == Program(eperm, enosys) && x.layout == LayoutOf(eperm, enosys)
    ensures Placed(x, eperm, enosys)
  {
    LabelOffsets(x.layout, eperm, enosys);
    PlacedParts(x, Dispatch(), Block(eperm, enosys, ARCHES[0]), Block(eperm, enosys, ARCHES[1]),
                Block(eperm, enosys, ARCHES[2]), Returns());
  }

  /** No jump offset is cut off by its cast. */
  lemma InReach(x: Setup, eperm: seq<Refused>, enosys: seq<Refused>)
    requires x.insns == Program(eperm, enosys) && x.layout == LayoutOf(eperm, enosys)
    requires AllFit(eperm, enosys)
    ensures forall i | 0 <= i < |x.insns| ::
              x.insns[i].target != NoTarget ==> Distance(x.layout, x.insns[i], i) < 0x1_0000_0000
  {
    FitExactly(eperm, enosys);
    forall i | 0 <= i < |x.insns| && x.insns[i].target != NoTarget
      ensures Distance(x.layout, x.insns[i], i) < 0x1_0000_0000
    {
      Distances(eperm, enosys, i);
    }
  }

  /** Compiler correctness: whatever the tables, the ABI and the call, the bytes
      return the tables' verdict. */
  lemma FilterCorrect(e: Endian, eperm: seq<Refused>, enosys: seq<Refused>, data: SeccompData)
    requires AllFit(eperm, enosys)
    ensures Run(e, EncodeAll(e, Emitted(eperm, enosys)), data, 0, 0)
         == Return(Verdict(eperm, enosys, data[1], data[0]))
  {
    var raws := Emitted(eperm, enosys);
    var x := Setup(Program(eperm, enosys), LayoutOf(eperm, enosys), data,
                   (pc: nat, acc: u32) => RunInsns(raws, data, pc, acc));
    InReach(x, eperm, enosys);
    EmittedFollows(x, raws);
    ProgramPlaced(x, eperm, enosys);
    DispatchCorrect(x, eperm, enosys);
    RunEncoded(e, raws, data, 0, 0);
  }

  /** The kernel takes the image: every jump is forward and inside it. */
  lemma FilterLoadable(e: Endian, eperm: seq<Refused>, enosys: seq<Refused>)
    requires AllFit(eperm, enosys)
    ensures Loadable(e, EncodeAll(e, Emitted(eperm, enosys)))
  {
    FitExactly(eperm, enosys);
    DecodeAllEncoded(e, Emitted(eperm, enosys));
    forall pc: nat | pc < |Program(eperm, enosys)|
      ensures Checked(Emitted(eperm, enosys)[pc], pc, |Program(eperm, enosys)|)
      ensures pc == |Program(eperm, enosys)| - 1 ==> Emitted(eperm, enosys)[pc].code == RET_K
    {
      var insn, layout := Program(eperm, enosys)[pc], LayoutOf(eperm, enosys);
      Distances(eperm, enosys, pc);
      CodeOf(eperm, enosys, pc);
      EmitChecked(layout, insn, pc, |Program(eperm, enosys)|);
    }
  }

  lemma EmitChecked(layout: Layout, insn: Instruction, pc: nat, length: nat)
    requires Fits(layout, insn, pc) && WellShaped(insn) && length <= MAX_INSNS
    requires insn.target != NoTarget ==> Distance(layout, insn, pc) < length - (pc + 1)
    ensures Checked(Emit(layout, insn, pc), pc, length)
  {
  }

  lemma CodeOf(eperm: seq<Refused>, enosys: seq<Refused>, pc: nat)
    requires pc < |Program(eperm, enosys)|
    ensures WellShaped(Program(eperm, enosys)[pc])
    ensures pc == |Program(eperm, enosys)| - 1 ==> Program(eperm, enosys)[pc].code == RET_K
  {
    var layout := LayoutOf(eperm, enosys);
    InParts(Dispatch(), Block(eperm, enosys, ARCHES[0]), Block(eperm, enosys, ARCHES[1]),
            Block(eperm, enosys, ARCHES[2]), Returns(), pc);
    if 5 <= pc < layout.allow {
      var n := if pc < layout.blocks[1] then 0 else if pc < layout.blocks[2] then 1 else 2;
      BlockShaped(eperm, enosys, ARCHES[n], pc - layout.blocks[n]);
    }
  }

  lemma BlockShaped(eperm: seq<Refused>, enosys: seq<Refused>, arch: u32, i: nat)
    requires i < |Block(eperm, enosys, arch)|
    ensures WellShaped(Block(eperm, enosys, arch)[i])
  {
  }
}

/** The tables the sandbox ships with. */
module RefusedTables {
  import opened Wrappers
  import opened Seccomp

  const REFUSED_EPERM: seq<Refused> := [
    Refused(Some(321), Some(357), Some(280)),
    Refused(Some(298), Some(336), Some(241)),
    Refused(Some(250), Some(288), Some(219)),
    Refused(Some(248), Some(286), Some(217)),
    Refused(Some(249), Some(287), Some(218)),
    Refused(Some(246), Some(283), Some(104)),
    Refused(Some(320), None, Some(294)),
    Refused(Some(175), Some(128), Some(105)),
    Refused(Some(313), Some(350), Some(273)),
    Refused(Some(176), Some(129), Some(106)),
    Refused(Some(167), Some(87), Some(224)),
    Refused(Some(168), Some(115), Some(225)),
    Refused(Some(163), Some(51), Some(89)),
    Refused(Some(179), Some(131), Some(60)),
    Refused(Some(103), Some(103), Some(116)),
    Refused(Some(134), Some(86), None),
    Refused(Some(136), Some(62), None),
    Refused(Some(139), Some(135), None),
    Refused(Some(153), Some(111), Some(58)),
    Refused(Some(212), Some(253), Some(18)),
    Refused(Some(304), Some(342), Some(265)),
    Refused(Some(300), Some(338), Some(262)),
    Refused(Some(172), Some(110), None),
    Refused(Some(173), Some(101), None)
  ]

  const REFUSED_ENOSYS: seq<Refused> := [
    Refused(Some(425), Some(425), Some(425)),
    Refused(Some(426), Some(426), Some(426)),
    Refused(Some(427), Some(427), Some(427)),
    Refused(Some(323), Some(374), Some(282))
  ]

  lemma {:induction false} CountAtMost(table: seq<Refused>, arch: u32)
    ensures Count(table, arch) <= |table|
  {
    if table != [] { CountAtMost(table[1..], arch); }
  }

  /** The shipped tables are within reach. */
  lemma ShippedTablesFit()
    ensures Total(REFUSED_EPERM, REFUSED_ENOSYS) <= MAX_NUMBERS
  {
    CountAtMost(REFUSED_EPERM, ARCH_X86_64);
    CountAtMost(REFUSED_ENOSYS, ARCH_X86_64);
    CountAtMost(REFUSED_EPERM, ARCH_I386);
    CountAtMost(REFUSED_ENOSYS, ARCH_I386);
    CountAtMost(REFUSED_EPERM, ARCH_AARCH64);
    CountAtMost(REFUSED_ENOSYS, ARCH_AARCH64);
    assert |REFUSED_EPERM| == 24 && |REFUSED_ENOSYS| == 4;
  }
}
