/**
  The seccomp filter generator, proved against an interpreter for the classic BPF instructions
  it emits.
 */
module Seccomp {

  const BPF_LD: bv16 := 0x00
  const BPF_JMP: bv16 := 0x05
  const BPF_RET: bv16 := 0x06
  const BPF_W: bv16 := 0x00
  const BPF_ABS: bv16 := 0x20
  const BPF_JEQ: bv16 := 0x10
  const BPF_K: bv16 := 0x00

  const LOAD_WORD: bv16 := BPF_LD | BPF_W | BPF_ABS
  const JUMP_EQ: bv16 := BPF_JMP | BPF_JEQ | BPF_K
  const RETURN_K: bv16 := BPF_RET | BPF_K

  const SECCOMP_RET_ALLOW: bv32 := 0x7fff0000
  const SECCOMP_RET_ERRNO: bv32 := 0x00050000
  const ERRNO_EPERM: bv32 := 1
  const RET_EPERM: bv32 := SECCOMP_RET_ERRNO | ERRNO_EPERM

  const AUDIT_ARCH_X86_64: bv32 := 0xc000003e
  const AUDIT_ARCH_AARCH64: bv32 := 0xc00000b7

  newtype uint8 = x: int | 0 <= x < 0x100

  /** Go's conversion of an int to uint8. */
  function Uint8(x: nat): uint8 { (x % 0x100) as uint8 }

  /** Go's uint8 addition, which wraps around. */
  function AddUint8(x: uint8, y: uint8): uint8 { ((x as int + y as int) % 0x100) as uint8 }

  datatype SockFilter = SockFilter(code: bv16, jt: uint8, jf: uint8, k: bv32)

  function BpfStmt(code: bv16, k: bv32): SockFilter { SockFilter(code, 0, 0, k) }

  function BpfJump(code: bv16, k: bv32, jt: uint8, jf: uint8): SockFilter { SockFilter(code, jt, jf, k) }

  /** The part of the kernel's `struct seccomp_data` the filter reads. */
  datatype SyscallData = SyscallData(nr: bv32, arch: bv32)

  datatype Outcome =
    | Returned(value: bv32, steps: nat) // the filter's verdict and the instructions it took
    | Fault                             // a jump out of the program, or an unknown instruction

  function OneMoreStep(o: Outcome): Outcome {
    match o
    case Returned(v, n) => Returned(v, n + 1)
    case Fault => Fault
  }

  /** The BPF machine at instruction `pc` with accumulator `a`; the offsets count from the next instruction. */
  function Run(prog: seq<SockFilter>, data: SyscallData, pc: nat, a: bv32): Outcome
    decreases |prog| - pc
  {
    if pc >= |prog| then Fault
    else
      var i := prog[pc];
      if i.code == LOAD_WORD && i.k == 0 then OneMoreStep(Run(prog, data, pc + 1, data.nr))
      else if i.code == LOAD_WORD && i.k == 4 then OneMoreStep(Run(prog, data, pc + 1, data.arch))
      else if i.code == JUMP_EQ then
        OneMoreStep(Run(prog, data, pc + 1 + (if a == i.k then i.jt else i.jf) as nat, a))
      else if i.code == RETURN_K then Returned(i.k, 1)
      else Fault
  }

  /** What the filter is for. */
  function Verdict(blocked: seq<bv32>, auditArch: bv32, data: SyscallData): bv32 {
    if data.arch == auditArch && data.nr in blocked then RET_EPERM else SECCOMP_RET_ALLOW
  }

  /** Every jump of the program lands on one of its instructions. */
  ghost predicate JumpsInBounds(prog: seq<SockFilter>) {
    forall pc :: 0 <= pc < |prog| && prog[pc].code == JUMP_EQ ==>
      pc + 1 + prog[pc].jt as int < |prog| && pc + 1 + prog[pc].jf as int < |prog|
  }

  ghost predicate DecidesBy(prog: seq<SockFilter>, blocked: seq<bv32>, auditArch: bv32) {
    forall data :: Run(prog, data, 0, 0).Returned? && Run(prog, data, 0, 0).value == Verdict(blocked, auditArch, data)
  }

  ghost predicate HaltsWithin(prog: seq<SockFilter>, bound: nat) {
    forall data :: Run(prog, data, 0, 0).Returned? && Run(prog, data, 0, 0).steps <= bound
  }

  /** The test for the i-th blocked number. */
  function Test(blocked: seq<bv32>, i: nat): SockFilter
    requires i < |blocked|
  {
    BpfJump(JUMP_EQ, blocked[i], AddUint8(Uint8(|blocked| - i - 1), 1), 0)
  }

  /** The layout of the program: load arch, check it, load the number, one test per number, two returns. */
  ghost predicate Layout(prog: seq<SockFilter>, blocked: seq<bv32>, auditArch: bv32) {
    && |prog| == |blocked| + 5
    && prog[0] == BpfStmt(LOAD_WORD, 4)
    && prog[1] == BpfJump(JUMP_EQ, auditArch, 0, Uint8(|blocked| + 1))
    && prog[2] == BpfStmt(LOAD_WORD, 0)
    && (forall i :: 0 <= i < |blocked| ==> prog[3 + i] == Test(blocked, i))
    && prog[3 + |blocked|] == BpfStmt(RETURN_K, SECCOMP_RET_ALLOW)
    && prog[4 + |blocked|] == BpfStmt(RETURN_K, RET_EPERM)
  }

  datatype Machine = Amd64 | Arm64

  /** The system calls the sandbox denies, by their number on each machine. */
  datatype Denied = ProcessVMReadv | ProcessVMWritev | Ptrace | KexecLoad | KexecFileLoad

  function Number(call: Denied, machine: Machine): bv32 {
    match call
    case ProcessVMReadv => if machine.Arm64? then 270 else 310
    case ProcessVMWritev => if machine.Arm64? then 271 else 311
    case Ptrace => if machine.Arm64? then 117 else 101
    case KexecLoad => if machine.Arm64? then 104 else 246
    case KexecFileLoad => if machine.Arm64? then 294 else 320
  }

  function AuditArch(machine: Machine): bv32 {
    if machine.Arm64? then AUDIT_ARCH_AARCH64 else AUDIT_ARCH_X86_64
  }

  method BlockedSyscalls(machine: Machine) returns (blocked: seq<bv32>, auditArch: bv32)
    ensures forall nr :: nr in blocked <==> exists call :: Number(call, machine) == nr
    ensures forall nr :: nr in blocked <==> nr in (if machine.Arm64? then {104, 117, 270, 271, 294} else {101, 246, 310, 311, 320})
    ensures |blocked| == 5
    ensures auditArch == AuditArch(machine) == if machine.Arm64? then 0xc00000b7 else 0xc000003e
  {
    blocked := [
      Number(ProcessVMReadv, machine),
      Number(ProcessVMWritev, machine),
      Number(Ptrace, machine),
      Number(KexecLoad, machine),
      Number(KexecFileLoad, machine)
    ];
    auditArch := AuditArch(machine);
  }

  /** The filter the launcher installs denies exactly the five calls, on its own architecture. */
  /** The instructions and verdicts as the kernel encodes them. */
  lemma Encodings()
    ensures LOAD_WORD == 0x20 && JUMP_EQ == 0x15 && RETURN_K == 0x06
    ensures RET_EPERM == 0x0005_0001 && SECCOMP_RET_ALLOW == 0x7fff_0000
  {
  }

  method SandboxFilter(machine: Machine) returns (filter: seq<SockFilter>)
    ensures forall data ::
              && Run(filter, data, 0, 0).Returned?
              && Run(filter, data, 0, 0).value
                 == if data.arch == AuditArch(machine) && exists call :: Number(call, machine) == data.nr
                    then RET_EPERM else SECCOMP_RET_ALLOW
    ensures |filter| == 10
    ensures filter[0] == SockFilter(0x20, 0, 0, 4) && filter[2] == SockFilter(0x20, 0, 0, 0)
    ensures filter[1] == SockFilter(0x15, 0, 6, AuditArch(machine))
    ensures filter[8] == SockFilter(0x06, 0, 0, 0x7fff_0000) && filter[9] == SockFilter(0x06, 0, 0, 0x0005_0001)
    ensures forall i :: 3 <= i < 8 ==> filter[i].code == 0x15 && filter[i].jt as int == 8 - i && filter[i].jf == 0
  {
    Encodings();
    var blocked, auditArch := BlockedSyscalls(machine);
    filter := BuildSeccompFilter(blocked, auditArch);
    forall i | 3 <= i < 8 ensures filter[i] == Test(blocked, i - 3) { assert filter[3 + (i - 3)] == Test(blocked, i - 3); }
  }

  method BuildSeccompFilter(blocked: seq<bv32>, auditArch: bv32) returns (filter: seq<SockFilter>)
    ensures Layout(filter, blocked, auditArch)
    ensures |blocked| <= 254 ==>
              && DecidesBy(filter, blocked, auditArch)
              && JumpsInBounds(filter)
              && HaltsWithin(filter, |blocked| + 4)
  {
    filter := [
      BpfStmt(LOAD_WORD, 4),
      BpfJump(JUMP_EQ, auditArch, 0, Uint8(|blocked| + 1)),
      BpfStmt(LOAD_WORD, 0)
    ];
    for i := 0 to |blocked|
      invariant |filter| == 3 + i
      invariant filter[0] == BpfStmt(LOAD_WORD, 4)
      invariant filter[1] == BpfJump(JUMP_EQ, auditArch, 0, Uint8(|blocked| + 1))
      invariant filter[2] == BpfStmt(LOAD_WORD, 0)
      invariant forall j :: 0 <= j < i ==> filter[3 + j] == Test(blocked, j)
    {
      var remaining := Uint8(|blocked| - i - 1);
      filter := filter + [BpfJump(JUMP_EQ, blocked[i], AddUint8(remaining, 1), 0)];
    }
    filter := filter + [BpfStmt(RETURN_K, SECCOMP_RET_ALLOW)];
    filter := filter + [BpfStmt(RETURN_K, RET_EPERM)];
    if |blocked| <= 254 {
      FilterIsCorrect(filter, blocked, auditArch);
    }
  }

  /** From the i-th test on, the accumulator is searched in the rest of the list. */
  lemma {:induction false} TestsDecide(
    prog: seq<SockFilter>, blocked: seq<bv32>, auditArch: bv32, data: SyscallData, i: nat, a: bv32)
    requires Layout(prog, blocked, auditArch) && |blocked| <= 254 && i <= |blocked|
    ensures var r := Run(prog, data, 3 + i, a);
            && r.Returned?
            && r.value == (if a in blocked[i..] then RET_EPERM else SECCOMP_RET_ALLOW)
            && r.steps <= |blocked| - i + 1
    decreases |blocked| - i
  {
    if i < |blocked| {
      assert blocked[i..] == [blocked[i]] + blocked[i + 1..];
      assert prog[3 + i] == Test(blocked, i);
      if a == blocked[i] {
        assert 3 + i + 1 + prog[3 + i].jt as nat == 4 + |blocked|;
      } else {
        TestsDecide(prog, blocked, auditArch, data, i + 1, a);
      }
    }
  }

  /** Compiler correctness: up to 254 numbers, no offset wraps and the program means `Verdict`. */
  lemma FilterIsCorrect(prog: seq<SockFilter>, blocked: seq<bv32>, auditArch: bv32)
    requires Layout(prog, blocked, auditArch) && |blocked| <= 254
    ensures DecidesBy(prog, blocked, auditArch)
    ensures JumpsInBounds(prog)
    ensures HaltsWithin(prog, |blocked| + 4)
  {
    forall data
      ensures var r := Run(prog, data, 0, 0);
              r.Returned? && r.value == Verdict(blocked, auditArch, data) && r.steps <= |blocked| + 4
    {
      RunDecides(prog, blocked, auditArch, data);
    }
    JumpsLand(prog, blocked, auditArch);
  }

  lemma RunDecides(prog: seq<SockFilter>, blocked: seq<bv32>, auditArch: bv32, data: SyscallData)
    requires Layout(prog, blocked, auditArch) && |blocked| <= 254
    ensures var r := Run(prog, data, 0, 0);
            r.Returned? && r.value == Verdict(blocked, auditArch, data) && r.steps <= |blocked| + 4
  {
    TestsDecide(prog, blocked, auditArch, data, 0, data.nr);
    assert blocked[0..] == blocked;
    assert Run(prog, data, 0, 0) == OneMoreStep(Run(prog, data, 1, data.arch));
    if data.arch == auditArch {
      assert Run(prog, data, 1, data.arch) == OneMoreStep(Run(prog, data, 2, data.arch));
    } else {
      assert Run(prog, data, 1, data.arch) == OneMoreStep(Run(prog, data, 3 + |blocked|, data.arch));
    }
  }

  lemma JumpsLand(prog: seq<SockFilter>, blocked: seq<bv32>, auditArch: bv32)
    requires Layout(prog, blocked, auditArch) && |blocked| <= 254
    ensures JumpsInBounds(prog)
  {
    assert forall pc :: 3 <= pc < 3 + |blocked| ==> prog[pc] == Test(blocked, pc - 3);
  }

  /** When no test that matches the accumulator jumps, the tests fall through to ALLOW. */
  lemma {:induction false} TestsFallThrough(
    prog: seq<SockFilter>, blocked: seq<bv32>, auditArch: bv32, data: SyscallData, i: nat, a: bv32)
    requires Layout(prog, blocked, auditArch) && i <= |blocked|
    requires forall j :: i <= j < |blocked| && blocked[j] == a ==> prog[3 + j].jt == 0
    ensures Run(prog, data, 3 + i, a).Returned? && Run(prog, data, 3 + i, a).value == SECCOMP_RET_ALLOW
    decreases |blocked| - i
  {
    if i < |blocked| {
      assert prog[3 + i] == Test(blocked, i);
      TestsFallThrough(prog, blocked, auditArch, data, i + 1, a);
    }
  }

  /** With 255 numbers the architecture check no longer skips the tests. */
  lemma WrapsAt255(prog: seq<SockFilter>, blocked: seq<bv32>, auditArch: bv32)
    requires Layout(prog, blocked, auditArch) && |blocked| == 255
    ensures !DecidesBy(prog, blocked, auditArch)
  {
    var other: bv32 := if auditArch == 0 then 1 else 0;
    var data := SyscallData(blocked[0], other);
    assert Run(prog, data, 0, 0) == OneMoreStep(Run(prog, data, 1, other));
    assert Run(prog, data, 1, other) == OneMoreStep(Run(prog, data, 2, other));
    assert Run(prog, data, 2, other) == OneMoreStep(Run(prog, data, 3, blocked[0]));
    assert prog[3] == Test(blocked, 0);
    assert Run(prog, data, 3, blocked[0]) == OneMoreStep(Run(prog, data, 4 + |blocked|, blocked[0]));
    assert Run(prog, data, 0, 0).value == RET_EPERM != Verdict(blocked, auditArch, data);
  }

  /** From 256 numbers on, the test 256 places before the end jumps nowhere, so its number is allowed. */
  lemma WrapsFrom256(prog: seq<SockFilter>, blocked: seq<bv32>, auditArch: bv32)
    requires Layout(prog, blocked, auditArch) && |blocked| >= 256
    requires forall i, j :: 0 <= i < j < |blocked| ==> blocked[i] != blocked[j]
    ensures !DecidesBy(prog, blocked, auditArch)
  {
    var i := |blocked| - 256;
    var data := SyscallData(blocked[i], auditArch);
    assert prog[3 + i] == Test(blocked, i);
    TestsFallThrough(prog, blocked, auditArch, data, 0, data.nr);
    assert Run(prog, data, 0, 0) == OneMoreStep(Run(prog, data, 1, auditArch));
    assert Run(prog, data, 1, auditArch) == OneMoreStep(Run(prog, data, 2, auditArch));
    assert Run(prog, data, 0, 0).value == SECCOMP_RET_ALLOW != Verdict(blocked, auditArch, data);
  }

  /** For distinct numbers the limit of 254 is exact. */
  lemma CorrectExactlyUpTo254(prog: seq<SockFilter>, blocked: seq<bv32>, auditArch: bv32)
    requires Layout(prog, blocked, auditArch)
    requires forall i, j :: 0 <= i < j < |blocked| ==> blocked[i] != blocked[j]
    ensures DecidesBy(prog, blocked, auditArch) <==> |blocked| <= 254
  {
    if |blocked| <= 254 {
      FilterIsCorrect(prog, blocked, auditArch);
    } else if |blocked| == 255 {
      WrapsAt255(prog, blocked, auditArch);
    } else {
      WrapsFrom256(prog, blocked, auditArch);
    }
  }
}
