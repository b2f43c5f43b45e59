/** The runtime's system-call filter, app-runtime/src/seccomp.c, run by a small BPF interpreter. */
module Seccomp {
  import opened Common

  /** The classic BPF instructions the filter uses. */
  datatype Instruction =
    | LoadWord(offset: nat)
    | JumpEqual(value: nat, ifTrue: nat, ifFalse: nat)
    | Return(value: nat)

  /** `struct seccomp_data`; `arg0` is a 64-bit word of a little-endian machine. */
  datatype Data = Data(nr: nat, arch: nat, arg0: nat)

  const NR_OFFSET: nat := 0
  const ARCH_OFFSET: nat := 4
  const ARG0_OFFSET: nat := 16

  /** The 32-bit word at an offset the filter reads. */
  function Word(data: Data, offset: nat): nat {
    if offset == NR_OFFSET then data.nr
    else if offset == ARCH_OFFSET then data.arch
    else if offset == ARG0_OFFSET then data.arg0 % UINT32_SIZE
    else 0
  }

  /** The value a program returns from `pc` on; `None` if it runs past its end. */
  function Exec(program: seq<Instruction>, pc: nat, accumulator: nat, data: Data): Option<nat>
    decreases |program| - pc
  {
    if pc >= |program| then None
    else
      match program[pc]
      case LoadWord(offset) => Exec(program, pc + 1, Word(data, offset), data)
      case JumpEqual(value, ifTrue, ifFalse) =>
        Exec(program, pc + 1 + (if accumulator == value then ifTrue else ifFalse), accumulator, data)
      case Return(value) => Some(value)
  }

  const AUDIT_ARCH_AARCH64: nat := 0xc000_00b7
  const RET_KILL_PROCESS: nat := 0x8000_0000
  const RET_ALLOW: nat := 0x7fff_0000
  const RET_EPERM: nat := 0x0005_0001
  const AF_UNIX: nat := 1
  const NR_SOCKET: nat := 198

  /** `CP0_ALLOW_SYSCALL` */
  function AllowSyscall(nr: nat): seq<Instruction> {
    [JumpEqual(nr, 0, 1), Return(RET_ALLOW)]
  }

  function AllowChain(list: seq<nat>): (r: seq<Instruction>)
    ensures |r| == 2 * |list|
  {
    if list == [] then [] else AllowSyscall(list[0]) + AllowChain(list[1..])
  }

  const HEADER: seq<Instruction> := [
    LoadWord(ARCH_OFFSET),
    JumpEqual(AUDIT_ARCH_AARCH64, 1, 0),
    Return(RET_KILL_PROCESS),
    LoadWord(NR_OFFSET),
    JumpEqual(NR_SOCKET, 0, 4),
    LoadWord(ARG0_OFFSET),
    JumpEqual(AF_UNIX, 0, 1),
    Return(RET_ALLOW),
    Return(RET_EPERM),
    LoadWord(NR_OFFSET)
  ]

  function Filter(list: seq<nat>): seq<Instruction> { HEADER + AllowChain(list) + [Return(RET_EPERM)] }

  /** The arm64 numbers of the calls the source lists, in its order. */
  const ALLOWED: seq<nat> := [
    63, 67, 64, 57, 203, 208, 80, 79, 62, 214, 222, 226, 215, 233, 134, 135, 139, 113, 115, 101, 98, 124, 172,
    178, 131, 96, 99, 261, 278, 293, 73, 20, 21, 22, 19, 212, 211, 207, 206, 29, 279, 46, 25, 93, 94
  ]

  const FILTER := Filter(ALLOWED)

  /**
   A chain of allow pairs, wherever it stands in a program, allows exactly the
   calls in its list and otherwise goes on behind the chain.
   */
  lemma {:induction false} ChainDecides(before: seq<Instruction>, list: seq<nat>, after: seq<Instruction>,
                                        nr: nat, data: Data)
    ensures var program := before + AllowChain(list) + after;
            Exec(program, |before|, nr, data) ==
            if nr in list then Some(RET_ALLOW) else Exec(program, |before| + 2 * |list|, nr, data)
    decreases |list|
  {
    var program := before + AllowChain(list) + after;
    if list != [] {
      assert program[|before|] == JumpEqual(list[0], 0, 1);
      assert program[|before| + 1] == Return(RET_ALLOW);
      assert list == [list[0]] + list[1..];
      if nr != list[0] {
        var longer := before + AllowSyscall(list[0]);
        assert longer + AllowChain(list[1..]) + after == program;
        ChainDecides(longer, list[1..], after, nr, data);
      }
    }
  }

  /** What the filter is meant to do. */
  function Policy(list: seq<nat>, data: Data): nat {
    if data.arch != AUDIT_ARCH_AARCH64 then RET_KILL_PROCESS
    else if data.nr == NR_SOCKET then if data.arg0 % UINT32_SIZE == AF_UNIX then RET_ALLOW else RET_EPERM
    else if data.nr in list then RET_ALLOW
    else RET_EPERM
  }

  /** The ten instructions in front of the chain. */
  lemma HeaderDecides(program: seq<Instruction>, data: Data)
    requires |HEADER| < |program| && program[..|HEADER|] == HEADER
    ensures Exec(program, 0, 0, data) ==
            if data.arch != AUDIT_ARCH_AARCH64 then Some(RET_KILL_PROCESS)
            else if data.nr != NR_SOCKET then Exec(program, |HEADER|, data.nr, data)
            else Some(if data.arg0 % UINT32_SIZE == AF_UNIX then RET_ALLOW else RET_EPERM)
  {
    assert forall i :: 0 <= i < |HEADER| ==> program[i] == program[..|HEADER|][i];
    var native := data.arch == AUDIT_ARCH_AARCH64;
    assert Exec(program, 0, 0, data) == Exec(program, 1, data.arch, data);
    assert Exec(program, 1, data.arch, data) == Exec(program, if native then 3 else 2, data.arch, data);
    if native {
      assert Exec(program, 3, data.arch, data) == Exec(program, 4, data.nr, data);
      if data.nr == NR_SOCKET {
        var family := data.arg0 % UINT32_SIZE;
        assert Exec(program, 4, data.nr, data) == Exec(program, 5, data.nr, data);
        assert Exec(program, 5, data.nr, data) == Exec(program, 6, family, data);
        assert Exec(program, 6, family, data) == Exec(program, if family == AF_UNIX then 7 else 8, family, data);
      } else {
        assert Exec(program, 4, data.nr, data) == Exec(program, 9, data.nr, data);
        assert Exec(program, 9, data.nr, data) == Exec(program, 10, data.nr, data);
      }
    }
  }

  /** For any list, the program ends, and ends with that verdict. */
  lemma FilterDecides(list: seq<nat>, data: Data)
    ensures Exec(Filter(list), 0, 0, data) == Some(Policy(list, data))
  {
    var program := Filter(list);
    assert program[..|HEADER|] == HEADER;
    HeaderDecides(program, data);
    ChainDecides(HEADER, list, [Return(RET_EPERM)], data.nr, data);
    assert program[|HEADER| + 2 * |list|] == Return(RET_EPERM);
  }

  /** The installed filter in particular; it also fits the kernel's length field. */
  lemma InstalledFilterDecides(data: Data)
    ensures Exec(FILTER, 0, 0, data) == Some(Policy(ALLOWED, data))
    ensures |FILTER| == 101
  {
    FilterDecides(ALLOWED, data);
  }
}
