/** The fragment of the Ethereum Virtual Machine that creation code needs (Ethereum Yellow Paper,
    Appendix H.2): STOP, CODECOPY, PUSH1 to PUSH32, DUP1 and RETURN. */
module MiniEvm {
  import opened Common

  const STOP: byte := 0x00
  const CODECOPY: byte := 0x39
  const PUSH1: byte := 0x60
  const PUSH32: byte := 0x7f
  const DUP1: byte := 0x80
  const RETURN: byte := 0xf3

  /** The top of the stack is at index 0; memory beyond the sequence is zero. */
  datatype Machine = Machine(pc: nat, stack: seq<nat>, memory: seq<byte>)

  datatype Halt = Stopped | Returned(data: seq<byte>) | StackUnderflow | InvalidOpcode

  datatype StepResult = Next(m: Machine) | Halted(halt: Halt)

  function ByteAt(bytes: seq<byte>, i: nat): byte {
    if i < |bytes| then bytes[i] else 0
  }

  /** `size` bytes from `from` on, zero beyond the end. */
  function Window(bytes: seq<byte>, from: nat, size: nat): (w: seq<byte>)
    ensures |w| == size
  {
    seq<byte>(size, i requires 0 <= i => ByteAt(bytes, from + i))
  }

  function BigEndian(bytes: seq<byte>): nat {
    if bytes == [] then 0 else 256 * BigEndian(bytes[..|bytes| - 1]) + bytes[|bytes| - 1]
  }

  /** Memory after writing `data` at `at`, extended with zeros as needed. */
  function Written(memory: seq<byte>, at: nat, data: seq<byte>): seq<byte> {
    if data == [] then memory
    else Window(memory, 0, at) + data + (if at + |data| < |memory| then memory[at + |data|..] else [])
  }

  /** Writing to memory, byte by byte. */
  lemma WrittenByByte(memory: seq<byte>, at: nat, data: seq<byte>, i: nat)
    ensures ByteAt(Written(memory, at, data), i) == if at <= i < at + |data| then data[i - at] else ByteAt(memory, i)
  {
    if data != [] && i < at {
      assert Window(memory, 0, at)[i] == ByteAt(memory, 0 + i);
    }
  }

  function StepPush(code: seq<byte>, m: Machine, n: nat): StepResult {
    Next(Machine(m.pc + 1 + n, [BigEndian(Window(code, m.pc + 1, n))] + m.stack, m.memory))
  }

  function StepDup(m: Machine): StepResult {
    if |m.stack| < 1 then Halted(StackUnderflow)
    else Next(Machine(m.pc + 1, [m.stack[0]] + m.stack, m.memory))
  }

  function StepCodeCopy(code: seq<byte>, m: Machine): StepResult {
    if |m.stack| < 3 then Halted(StackUnderflow)
    else
      var dest, offset, size := m.stack[0], m.stack[1], m.stack[2];
      Next(Machine(m.pc + 1, m.stack[3..], Written(m.memory, dest, Window(code, offset, size))))
  }

  function StepReturn(m: Machine): StepResult {
    if |m.stack| < 2 then Halted(StackUnderflow)
    else Halted(Returned(Window(m.memory, m.stack[0], m.stack[1])))
  }

  function Step(code: seq<byte>, m: Machine): StepResult {
    var op := ByteAt(code, m.pc);
    if op == STOP then Halted(Stopped)
    else if PUSH1 <= op <= PUSH32 then StepPush(code, m, op - PUSH1 + 1)
    else if op == DUP1 then StepDup(m)
    else if op == CODECOPY then StepCodeCopy(code, m)
    else if op == RETURN then StepReturn(m)
    else Halted(InvalidOpcode)
  }

  /** Runs at most `fuel` steps; None if that is not enough. */
  function Run(code: seq<byte>, m: Machine, fuel: nat): Option<Halt>
    decreases fuel
  {
    if fuel == 0 then None
    else match Step(code, m)
      case Halted(halt) => Some(halt)
      case Next(m') => Run(code, m', fuel - 1)
  }

  const INITIAL := Machine(0, [], [])
}
