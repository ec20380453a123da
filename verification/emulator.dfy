/** The SMPU processor (emulator.js:1-429): eight registers, a halted flag and the devices on
    its bus. `Clock` fetches one opcode at the program counter and `Execute` carries it out.
    Registers are unbounded integers reduced with JavaScript's `%`, so a register can become
    negative (`DECR` at zero leaves `q == -1`). */
module Emulator {
  import opened Base
  import opened Js
  import opened Devices

  datatype Reg = A | B | Q | H | L | P | S | C

  datatype Regs = Regs(a: int, b: int, q: int, h: int, l: int, p: int, s: int, c: int)

  datatype Machine = Machine(regs: Regs, devices: seq<Device>, halted: bool)

  /** `new SMPU()`: all registers zero except the stack pointer at 255, no devices. */
  const Initial: Machine := Machine(Regs(0, 0, 0, 0, 0, 0, 255, 0), [], false)

  /** The register a name denotes, for the names `register in this.registers` accepts. */
  function RegisterNamed(name: string): Option<Reg>
  {
    if name == "a" then Some(A)
    else if name == "b" then Some(B)
    else if name == "q" then Some(Q)
    else if name == "h" then Some(H)
    else if name == "l" then Some(L)
    else if name == "p" then Some(P)
    else if name == "s" then Some(S)
    else if name == "c" then Some(C)
    else None
  }

  function Get(regs: Regs, r: Reg): int
  {
    match r
    case A => regs.a
    case B => regs.b
    case Q => regs.q
    case H => regs.h
    case L => regs.l
    case P => regs.p
    case S => regs.s
    case C => regs.c
  }

  /** What `setValue` reduces a register modulo: 65536 for `p`, 2 for `c`, 256 otherwise. */
  function Modulus(r: Reg): nat
  {
    match r
    case P => 65536
    case C => 2
    case _ => 256
  }

  /** `setValue` for an existing register: the value with JavaScript's `%` by the modulus. */
  function Set(regs: Regs, r: Reg, value: int): Regs
  {
    var v := Rem(value, Modulus(r));
    match r
    case A => regs.(a := v)
    case B => regs.(b := v)
    case Q => regs.(q := v)
    case H => regs.(h := v)
    case L => regs.(l := v)
    case P => regs.(p := v)
    case S => regs.(s := v)
    case C => regs.(c := v)
  }

  /** The 16-bit address held in `h` and `l`: `getValue('r')`. */
  function AddressPair(regs: Regs): int
  {
    regs.h * 256 + regs.l
  }

  /** `getValue('z')`: 1 when `q` is zero. */
  function ZeroFlag(regs: Regs): int
  {
    if regs.q == 0 then 1 else 0
  }

  /** `getValue(name)`; `None` stands for `undefined`. */
  function GetValue(m: Machine, name: string): Option<int>
  {
    match RegisterNamed(name)
    case Some(r) => Some(Get(m.regs, r))
    case None =>
      if name == "r" then Some(AddressPair(m.regs))
      else if name == "z" then Some(ZeroFlag(m.regs))
      else None
  }

  datatype SetError = InvalidRegister(name: string)

  /** `setValue(name, value)`; the error stands for the exception it throws. */
  function SetValue(m: Machine, name: string, value: int): Result<Machine, SetError>
  {
    match RegisterNamed(name)
    case None => Err(InvalidRegister(name))
    case Some(r) => Ok(m.(regs := Set(m.regs, r, value)))
  }

  /** The messages the processor reports, by category. */
  datatype Event =
    | MultipleReaders(address: int)
    | NoReader(address: int)
    | MultipleWriters(address: int)
    | NoWriter(address: int)
    | PcOverflow
    | StackUnderflow
    | StackOverflow
    | Halting
    | InvalidInstruction(op: int)

  datatype Level = InfoLevel | WarnLevel | FatalLevel

  /** The `INFO:`, `WARN:` or `FATAL:` prefix of each message. */
  function LevelOf(e: Event): Level
  {
    match e
    case Halting => InfoLevel
    case NoReader(_) => FatalLevel
    case NoWriter(_) => FatalLevel
    case InvalidInstruction(_) => FatalLevel
    case _ => WarnLevel
  }

  // ---------------------------------------------------------------------------
  // The bus
  // ---------------------------------------------------------------------------

  /** The loop of `readDevices`: every device's output OR-ed into one value, starting from 0,
      and the number of devices that responded. */
  function BusRead(devices: seq<Device>, address: int): (r: (int, nat))
    ensures r.1 <= |devices|
    decreases |devices|
  {
    if |devices| == 0 then (0, 0)
    else
      var (acc, n) := BusRead(devices[..|devices| - 1], address);
      var (cell, responded) := Read(devices[|devices| - 1], address);
      (BitOr(acc, CellNumber(cell)), n + if responded then 1 else 0)
  }

  /** The loop of `writeDevices`: every device offered the value, and the number that accepted. */
  function BusWrite(devices: seq<Device>, address: int, value: int): (r: (seq<Device>, nat))
    ensures |r.0| == |devices| && r.1 <= |devices|
    decreases |devices|
  {
    if |devices| == 0 then ([], 0)
    else
      var (d, accepted) := Write(devices[0], address, value);
      var (rest, n) := BusWrite(devices[1..], address, value);
      ([d] + rest, n + if accepted then 1 else 0)
  }

  /** The result of a read: the machine after it, the value, the messages and the status. */
  datatype Fetch = Fetch(m: Machine, value: int, events: seq<Event>, ok: bool)

  /** The result of a step: the machine after it, the messages and the status. */
  datatype Step = Step(m: Machine, events: seq<Event>, ok: bool)

  /** `readDevices(addr)`: with no responder the machine halts. */
  function ReadDevices(m: Machine, address: int): Fetch
  {
    var (value, responders) := BusRead(m.devices, address);
    if responders == 0 then Fetch(m.(halted := true), value, [NoReader(address)], false)
    else Fetch(m, value, if responders > 1 then [MultipleReaders(address)] else [], true)
  }

  /** `writeDevices(addr, value)`: with no device accepting the machine halts. */
  function WriteDevices(m: Machine, address: int, value: int): Step
  {
    var (devices, accepted) := BusWrite(m.devices, address, value);
    var m' := m.(devices := devices);
    if accepted == 0 then Step(m'.(halted := true), [NoWriter(address)], false)
    else Step(m', if accepted > 1 then [MultipleWriters(address)] else [], true)
  }

  /** `pullAtProgramCounter()`: read at `p`, then advance `p` whether or not the read worked. */
  function Pull(m: Machine): Fetch
  {
    var f := ReadDevices(m, m.regs.p);
    var regs := Set(f.m.regs, P, f.m.regs.p + 1);
    Fetch(f.m.(regs := regs), f.value, f.events + (if regs.p == 0 then [PcOverflow] else []), f.ok)
  }

  /** `mount(device)` */
  function Mount(m: Machine, d: Device): Machine
  {
    m.(devices := m.devices + [d])
  }

  /** The devices other than `d`, in order. */
  function Without(devices: seq<Device>, d: Device): seq<Device>
    decreases |devices|
  {
    if |devices| == 0 then []
    else (if devices[0] == d then [] else [devices[0]]) + Without(devices[1..], d)
  }

  /** `unmount(device)` */
  function Unmount(m: Machine, d: Device): Machine
  {
    m.(devices := Without(m.devices, d))
  }

  // ---------------------------------------------------------------------------
  // Instructions
  // ---------------------------------------------------------------------------

  datatype Opcode =
    | HLT | NOP | ADR | LDA | STA | LDB | SWP | LDH | LDL | STH | STL | LDQ | STQ | CLA | CLB | CLQ
    | ADD | ADDC | SUB | SUBC | SHL | SHLC | SHR | SHRC | AND | OR | XOR | NAND | NOR | XNOR
    | CKSM | CKSMC | INCR | DECR | JMP | JMPC | JMPZ | JMPQ | PSH | POP | SUBR | RET

  /** The `case` label of an opcode. */
  function CaseLabel(o: Opcode): nat
  {
    match o
    case HLT => 0 case NOP => 1 case ADR => 2 case LDA => 3 case STA => 4 case LDB => 5
    case SWP => 6 case LDH => 7 case LDL => 8 case STH => 9 case STL => 10 case LDQ => 11
    case STQ => 12 case CLA => 13 case CLB => 14 case CLQ => 15
    case ADD => 20 case ADDC => 21 case SUB => 22 case SUBC => 23 case SHL => 24 case SHLC => 25
    case SHR => 26 case SHRC => 27 case AND => 28 case OR => 29 case XOR => 30 case NAND => 31
    case NOR => 32 case XNOR => 33 case CKSM => 34 case CKSMC => 35 case INCR => 36 case DECR => 37
    case JMP => 38 case JMPC => 39 case JMPZ => 40 case JMPQ => 41 case PSH => 42 case POP => 43
    case SUBR => 44 case RET => 45
  }

  /** The mnemonic the comment next to each `case` label gives. */
  function Mnemonic(o: Opcode): string
  {
    match o
    case HLT => "HLT" case NOP => "NOP" case ADR => "ADR" case LDA => "LDA" case STA => "STA"
    case LDB => "LDB" case SWP => "SWP" case LDH => "LDH" case LDL => "LDL" case STH => "STH"
    case STL => "STL" case LDQ => "LDQ" case STQ => "STQ" case CLA => "CLA" case CLB => "CLB"
    case CLQ => "CLQ" case ADD => "ADD" case ADDC => "ADDC" case SUB => "SUB" case SUBC => "SUBC"
    case SHL => "SHL" case SHLC => "SHLC" case SHR => "SHR" case SHRC => "SHRC" case AND => "AND"
    case OR => "OR" case XOR => "XOR" case NAND => "NAND" case NOR => "NOR" case XNOR => "XNOR"
    case CKSM => "CKSM" case CKSMC => "CKSMC" case INCR => "INCR" case DECR => "DECR"
    case JMP => "JMP" case JMPC => "JMPC" case JMPZ => "JMPZ" case JMPQ => "JMPQ"
    case PSH => "PSH" case POP => "POP" case SUBR => "SUBR" case RET => "RET"
  }

  /** Which `case` of the `switch (instruction)` a fetched value selects; `None` is `default`. */
  function Decode(op: int): Option<Opcode>
  {
    match op
    case 0 => Some(HLT) case 1 => Some(NOP) case 2 => Some(ADR) case 3 => Some(LDA)
    case 4 => Some(STA) case 5 => Some(LDB) case 6 => Some(SWP) case 7 => Some(LDH)
    case 8 => Some(LDL) case 9 => Some(STH) case 10 => Some(STL) case 11 => Some(LDQ)
    case 12 => Some(STQ) case 13 => Some(CLA) case 14 => Some(CLB) case 15 => Some(CLQ)
    case 20 => Some(ADD) case 21 => Some(ADDC) case 22 => Some(SUB) case 23 => Some(SUBC)
    case 24 => Some(SHL) case 25 => Some(SHLC) case 26 => Some(SHR) case 27 => Some(SHRC)
    case 28 => Some(AND) case 29 => Some(OR) case 30 => Some(XOR) case 31 => Some(NAND)
    case 32 => Some(NOR) case 33 => Some(XNOR) case 34 => Some(CKSM) case 35 => Some(CKSMC)
    case 36 => Some(INCR) case 37 => Some(DECR) case 38 => Some(JMP) case 39 => Some(JMPC)
    case 40 => Some(JMPZ) case 41 => Some(JMPQ) case 42 => Some(PSH) case 43 => Some(POP)
    case 44 => Some(SUBR) case 45 => Some(RET)
    case _ => None
  }

  /** A machine with register `r` set as `setValue` sets it. */
  function With(m: Machine, r: Reg, value: int): Machine
  {
    m.(regs := Set(m.regs, r, value))
  }

  /** A step that completes without messages. */
  function Done(m: Machine): Step
  {
    Step(m, [], true)
  }

  /** A read whose value goes into register `r`. */
  function Load(f: Fetch, r: Reg): Step
  {
    Step(With(f.m, r, f.value), f.events, f.ok)
  }

  /** An arithmetic result stored in `a`, with `c` set when the unreduced result exceeds 255. */
  function WithCarry(m: Machine, result: int): Machine
  {
    With(With(m, A, result), C, if result > 255 then 1 else 0)
  }

  /** A jump to the address in `h` and `l` when `taken`. */
  function JumpIf(m: Machine, taken: bool): Step
  {
    Done(if taken then With(m, P, AddressPair(m.regs)) else m)
  }

  /** The stack lives in the top page: `s + 0xFF00`. */
  function StackAddress(regs: Regs): int
  {
    regs.s + 0xFF00
  }

  /** The warning after a decrement of `s`, which fires when `s` reads 255. */
  function Underflow(m: Machine): seq<Event>
  {
    if m.regs.s == 255 then [StackUnderflow] else []
  }

  /** The warning after an increment of `s`, which fires when `s` reads 0. */
  function Overflow(m: Machine): seq<Event>
  {
    if m.regs.s == 0 then [StackOverflow] else []
  }

  /** The sum of `(a >> i) & 1` for `i` below `n`: the loop of `CKSM`. The low bit stands
      for `& 1`, which `Js.AndOneIsLowBit` shows equal for every operand. */
  function BitSum(a: int, n: nat): int
  {
    if n == 0 then 0 else BitSum(a, n - 1) + LowBit(ShiftRight(a, n - 1))
  }

  /** `ADR`: two bytes after the opcode go into `h` and `l`. */
  function LoadAddress(m: Machine): Step
  {
    var hi := Pull(m);
    var lo := Pull(hi.m);
    Step(With(With(lo.m, H, hi.value), L, lo.value), hi.events + lo.events, hi.ok && lo.ok)
  }

  /** `PSH`: write `a` at the stack pointer, then decrement it. */
  function Push(m: Machine): Step
  {
    var w := WriteDevices(m, StackAddress(m.regs), m.regs.a);
    var m' := With(w.m, S, w.m.regs.s - 1);
    Step(m', w.events + Underflow(m'), w.ok)
  }

  /** `POP`: increment the stack pointer, then read `a` there. */
  function Pop(m: Machine): Step
  {
    var m1 := With(m, S, m.regs.s + 1);
    var r := ReadDevices(m1, StackAddress(m1.regs));
    var m2 := With(r.m, A, r.value);
    Step(m2, r.events + Overflow(m2), r.ok)
  }

  /** `SUBR`: push the high and then the low byte of `p`, and jump to the address in `h` and `l`. */
  function Call(m: Machine): Step
  {
    var w1 := WriteDevices(m, StackAddress(m.regs), m.regs.p / 256);
    var m1 := With(w1.m, S, w1.m.regs.s - 1);
    var w2 := WriteDevices(m1, StackAddress(m1.regs), Rem(m1.regs.p, 256));
    var m2 := With(w2.m, S, w2.m.regs.s - 1);
    Step(With(m2, P, AddressPair(m2.regs)), w1.events + Underflow(m1) + w2.events + Underflow(m2), w1.ok && w2.ok)
  }

  /** `RET`: pop the low and then the high byte of the return address into `p`. */
  function Return(m: Machine): Step
  {
    var m1 := With(m, S, m.regs.s + 1);
    var lo := ReadDevices(m1, StackAddress(m1.regs));
    var m2 := With(lo.m, S, lo.m.regs.s + 1);
    var hi := ReadDevices(m2, StackAddress(m2.regs));
    Step(With(hi.m, P, hi.value * 256 + lo.value), Overflow(m1) + Overflow(m2) + lo.events + hi.events, lo.ok && hi.ok)
  }

  /** `LDB`, `LDH`, `LDL`, `LDQ`, `STH`, `STL`, `STQ`: copy one register into another. */
  function Move(m: Machine, from: Reg, to: Reg): Step
  {
    Done(With(m, to, Get(m.regs, from)))
  }

  /** `SWP`: exchange `a` and `b`. */
  function Swap(m: Machine): Step
  {
    Done(With(With(m, A, m.regs.b), B, m.regs.a))
  }

  /** `ADD` and, with `carry`, `ADDC`. */
  function Sum(m: Machine, carry: bool): Step
  {
    var r := m.regs;
    Done(WithCarry(m, r.a + r.b + if carry then r.c else 0))
  }

  /** `SUB` and, with `carry`, `SUBC`: the complement of `b` plus one is added, and the carry
      on top. */
  function Difference(m: Machine, carry: bool): Step
  {
    var r := m.regs;
    Done(WithCarry(m, r.a + BitXor(r.b, 0xFF) + 1 + if carry then r.c else 0))
  }

  /** `SHL` and, with `carry`, `SHLC`; `<<` binds more loosely than `+`, so the carry is
      added to the shift count. */
  function ShiftUp(m: Machine, carry: bool): Step
  {
    var r := m.regs;
    Done(WithCarry(m, ShiftLeft(r.a, 1 + if carry then r.c else 0)))
  }

  /** `SHR` and, with `carry`, `SHRC`; `>>` binds more loosely than `+`, so `c * 128` is
      added to the shift count. */
  function ShiftDown(m: Machine, carry: bool): Step
  {
    var r := m.regs;
    Done(WithCarry(m, ShiftRight(r.a, 1 + if carry then r.c * 128 else 0)))
  }

  /** `AND`, `OR`, `XOR` and, with `complement`, `NAND`, `NOR`, `XNOR` (`^ 0xFF` afterwards). */
  function Logic(m: Machine, op: BitOp, complement: bool): Step
  {
    var r := m.regs;
    var x := match op
      case AndOp => BitAnd(r.a, r.b)
      case OrOp => BitOr(r.a, r.b)
      case XorOp => BitXor(r.a, r.b);
    Done(With(m, A, if complement then BitXor(x, 0xFF) else x))
  }

  /** `CKSM` and, with `carry`, `CKSMC`: the carry becomes the sum of the bits of `a`
      (plus the carry) modulo 2. */
  function Checksum(m: Machine, carry: bool): Step
  {
    var r := m.regs;
    Done(With(m, C, Rem(BitSum(r.a, 8) + (if carry then r.c else 0), 2)))
  }

  /** `INCR` and `DECR`: `q` moves by `delta`. */
  function Count(m: Machine, delta: int): Step
  {
    Done(With(m, Q, m.regs.q + delta))
  }

  /** One `case` of `execute`. */
  function Run(m: Machine, o: Opcode): Step
  {
    var r := m.regs;
    match o
    case HLT => Step(m.(halted := true), [Halting], false)
    case NOP => Done(m)
    case ADR => LoadAddress(m)
    case LDA => Load(ReadDevices(m, AddressPair(r)), A)
    case STA => WriteDevices(m, AddressPair(r), r.a)
    case LDB => Move(m, A, B)
    case SWP => Swap(m)
    case LDH => Move(m, A, H)
    case LDL => Move(m, A, L)
    case STH => Move(m, H, A)
    case STL => Move(m, L, A)
    case LDQ => Move(m, A, Q)
    case STQ => Move(m, Q, A)
    case CLA => Load(Pull(m), A)
    case CLB => Load(Pull(m), B)
    case CLQ => Load(Pull(m), Q)
    case ADD => Sum(m, false)
    case ADDC => Sum(m, true)
    case SUB => Difference(m, false)
    case SUBC => Difference(m, true)
    case SHL => ShiftUp(m, false)
    case SHLC => ShiftUp(m, true)
    case SHR => ShiftDown(m, false)
    case SHRC => ShiftDown(m, true)
    case AND => Logic(m, AndOp, false)
    case OR => Logic(m, OrOp, false)
    case XOR => Logic(m, XorOp, false)
    case NAND => Logic(m, AndOp, true)
    case NOR => Logic(m, OrOp, true)
    case XNOR => Logic(m, XorOp, true)
    case CKSM => Checksum(m, false)
    case CKSMC => Checksum(m, true)
    case INCR => Count(m, 1)
    case DECR => Count(m, -1)
    case JMP => JumpIf(m, true)
    case JMPC => JumpIf(m, r.c == 1)
    case JMPZ => JumpIf(m, ZeroFlag(r) == 1)
    case JMPQ => JumpIf(m, ZeroFlag(r) == 0)
    case PSH => Push(m)
    case POP => Pop(m)
    case SUBR => Call(m)
    case RET => Return(m)
  }

  /** `execute(instruction)`: an opcode without a `case` halts the machine. */
  function Execute(m: Machine, op: int): Step
  {
    match Decode(op)
    case None => Step(m.(halted := true), [InvalidInstruction(op)], false)
    case Some(o) => Run(m, o)
  }

  /** `clock()`: nothing happens on a halted machine; a failed fetch skips execution. */
  function Clock(m: Machine): Step
  {
    if m.halted then Step(m, [], false)
    else
      var f := Pull(m);
      if !f.ok then Step(f.m, f.events, false)
      else
        var e := Execute(f.m, f.value);
        Step(e.m, f.events + e.events, e.ok)
  }
}
