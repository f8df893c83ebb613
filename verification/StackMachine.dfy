/** A processor reduced to what interrupt entry and exit touch: the general
    registers, the stack and the words iretq restores. */
module StackMachine {
  import opened Options
  import opened InterruptTable

  type Quad = int

  /** rax, rbx, rcx, rdx, rsi, rdi, r8 to r15, rbp: in the order of the frames. */
  type Regs = s: seq<Quad> | |s| == 15 witness seq(15, _ => 0)

  type Reg = r: nat | r < 15

  const RAX: Reg := 0
  const RBX: Reg := 1
  const RCX: Reg := 2
  const RDX: Reg := 3
  const RSI: Reg := 4
  const RDI: Reg := 5
  const R8: Reg := 6
  const R9: Reg := 7
  const R10: Reg := 8
  const R11: Reg := 9
  const R12: Reg := 10
  const R13: Reg := 11
  const R14: Reg := 12
  const R15: Reg := 13
  const RBP: Reg := 14

  datatype Cpu = Cpu(regs: Regs, rsp: int, rip: Quad, cs: Quad, rflags: Quad, ss: Quad, mem: map<int, Quad>)

  function Load(mem: map<int, Quad>, a: int): Quad {
    if a in mem then mem[a] else 0
  }

  /** The `n` words from `a` up. */
  function Slice(mem: map<int, Quad>, a: int, n: nat): (s: seq<Quad>)
    ensures |s| == n && forall j | 0 <= j < n :: s[j] == Load(mem, a + 8 * j)
  {
    seq(n, j => Load(mem, a + 8 * j))
  }

  datatype Instr =
    | Push(r: Reg)
    | PushImm(w: Quad)
    | Pop(r: Reg)
    | MovRsp(r: Reg)           // r := rsp
    | MovImm(r: Reg, w: Quad)
    | AddRsp(n: nat)
    | Cld
    | Call                     // the C handler

  function PushWord(c: Cpu, w: Quad): Cpu {
    c.(rsp := c.rsp - 8, mem := c.mem[c.rsp - 8 := w])
  }

  /** Clearing the direction flag, bit 10. */
  function ClearDirection(flags: Quad): Quad {
    if flags / 1024 % 2 == 1 then flags - 1024 else flags
  }

  /** Every instruction but the call; `rip` counts instructions. */
  function Exec(i: Instr, c: Cpu): Cpu {
    var n := c.(rip := c.rip + 1);
    match i
    case Push(r) => PushWord(n, c.regs[r])
    case PushImm(w) => PushWord(n, w)
    case Pop(r) => n.(regs := c.regs[r := Load(c.mem, c.rsp)], rsp := c.rsp + 8)
    case MovRsp(r) => n.(regs := c.regs[r := c.rsp])
    case MovImm(r, w) => n.(regs := c.regs[r := w])
    case AddRsp(k) => n.(rsp := c.rsp + k)
    case Cld => n.(rflags := ClearDirection(c.rflags))
    case Call => c
  }

  /** The tops of the interrupt stacks 1 to 4, from the task state segment. */
  type Tss = t: seq<int> | |t| == 4 witness [0, 0, 0, 0]

  const STACK_SIZE := 4096

  function Top(tss: Tss, ist: nat): int {
    if 1 <= ist <= 4 then tss[ist - 1] else 0
  }

  /** Where interrupt entry starts to push: at the top of the gate's interrupt
      stack, whether it is in use or not, or at the current stack pointer. */
  function EntryBase(tss: Tss, ist: nat, rsp: int): int {
    if ist == 0 then rsp - rsp % 16 else Top(tss, ist) - Top(tss, ist) % 16
  }

  /** Interrupt entry: switch to the gate's stack if it names one, align, push ss,
      rsp, rflags, cs and rip, and the error code if the event has one (Intel SDM,
      Vol. 3A, section 6.14). */
  function Enter(tss: Tss, ist: nat, c: Cpu, error: Option<Quad>, target: Quad, flags: Quad): Cpu {
    var s := c.(rsp := EntryBase(tss, ist, c.rsp), rip := target, cs := 8, rflags := flags);
    var f := PushWord(PushWord(PushWord(PushWord(PushWord(s, c.ss), c.rsp), c.rflags), c.cs), c.rip);
    if error.Some? then PushWord(f, error.value) else f
  }

  function Iretq(c: Cpu): Cpu {
    c.(rip := Load(c.mem, c.rsp), cs := Load(c.mem, c.rsp + 8), rflags := Load(c.mem, c.rsp + 16),
       rsp := Load(c.mem, c.rsp + 24), ss := Load(c.mem, c.rsp + 32))
  }

  // ---------------------------------------------------------------- pushers

  const SAVE_ISR_REGISTERS: seq<Instr> := [
    Push(RBP), MovRsp(RBP), Push(R15), Push(R14), Push(R13), Push(R12), Push(R11), Push(R10), Push(R9),
    Push(R8), Push(RDI), Push(RSI), Push(RDX), Push(RCX), Push(RBX), Push(RAX), Cld]

  const RESTORE_ISR_REGISTERS: seq<Instr> := [
    Pop(RAX), Pop(RBX), Pop(RCX), Pop(RDX), Pop(RSI), Pop(RDI), Pop(R8), Pop(R9), Pop(R10), Pop(R11),
    Pop(R12), Pop(R13), Pop(R14), Pop(R15), Pop(RBP)]

  /** The vectors whose pushers are made with CPU_EXC_MACRO. */
  predicate ExpectsErrorCode(num: nat) { num in {8, 10, 11, 12, 13, 14, 17, 30} }

  /** A pusher up to its call; the frame pointer goes to rdi, or to rcx when
      compiled for the Microsoft calling convention. */
  function BeforeCall(num: nat, argument: Reg): seq<Instr> {
    if ExpectsErrorCode(num) then
      [PushImm(num)] + SAVE_ISR_REGISTERS + [MovRsp(argument), MovImm(RAX, 0)]
    else
      SAVE_ISR_REGISTERS + [PushImm(num), MovRsp(argument), MovImm(RAX, 0)]
  }

  /** And from there to its iretq. */
  function AfterCall(num: nat): seq<Instr> {
    if ExpectsErrorCode(num) then RESTORE_ISR_REGISTERS + [AddRsp(16)]
    else [AddRsp(8)] + RESTORE_ISR_REGISTERS
  }

  function Pusher(num: nat, argument: Reg): seq<Instr> {
    BeforeCall(num, argument) + [Call] + AfterCall(num)
  }

  // -------------------------------------------------------------- executions

  /** An interrupt with everything that happens until its iretq: `steps` says
      where further interrupts arrive between the pusher's instructions, `handler`
      what the C handler does. */
  datatype Irq = Irq(num: nat, error: Option<Quad>, flags: Quad, target: Quad, steps: Steps, handler: Handler)

  datatype Steps = Quiet | Next(rest: Steps) | Arrives(irq: Irq, rest: Steps)

  /** A C handler: it writes registers and flags, stores below its frame, moves the
      stack pointer below its return address, is interrupted, and returns. */
  datatype Handler =
    | Return
    | SetReg(r: Reg, w: Quad, rest: Handler)
    | SetFlags(w: Quad, rest: Handler)
    | Store(below: nat, w: Quad, rest: Handler)
    | MoveRsp(depth: nat, rest: Handler)
    | Interrupted(irq: Irq, rest: Handler)

  function IrqSize(i: Irq): nat { 1 + StepsSize(i.steps) + HandlerSize(i.handler) }

  function StepsSize(s: Steps): nat {
    match s
    case Quiet => 0
    case Next(rest) => 1 + StepsSize(rest)
    case Arrives(i, rest) => 1 + IrqSize(i) + StepsSize(rest)
  }

  function HandlerSize(h: Handler): nat {
    match h
    case Return => 0
    case SetReg(_, _, rest) => 1 + HandlerSize(rest)
    case SetFlags(_, rest) => 1 + HandlerSize(rest)
    case Store(_, _, rest) => 1 + HandlerSize(rest)
    case MoveRsp(_, rest) => 1 + HandlerSize(rest)
    case Interrupted(i, rest) => 1 + IrqSize(i) + HandlerSize(rest)
  }

  /** The interrupt stack of a vector's gate, as InitializeISR sets it. */
  function IstOf(num: nat): nat { Stack(KindOf(num)) }

  function Entered(tss: Tss, i: Irq, c: Cpu): Cpu {
    Enter(tss, IstOf(i.num), c, i.error, i.target, i.flags)
  }

  /** Takes an interrupt and comes back from it. */
  function Take(tss: Tss, i: Irq, argument: Reg, c: Cpu): Cpu
    decreases IrqSize(i), 0
  {
    Iretq(Run(tss, Pusher(i.num, argument), i.steps, i.handler, argument, Entered(tss, i, c)))
  }

  /** Runs code, taking interrupts where `steps` has them arrive. */
  function Run(tss: Tss, code: seq<Instr>, steps: Steps, h: Handler, argument: Reg, c: Cpu): Cpu
    decreases StepsSize(steps) + HandlerSize(h), |code| + 3
  {
    if steps.Arrives? then Run(tss, code, steps.rest, h, argument, Take(tss, steps.irq, argument, c))
    else if code == [] then c
    else Run(tss, code[1..], Later(steps), h, argument, Step(tss, code[0], h, argument, c))
  }

  function Later(steps: Steps): (s: Steps)
    ensures StepsSize(s) <= StepsSize(steps)
  {
    if steps.Next? then steps.rest else steps
  }

  /** One instruction, or the whole call of the handler. */
  function Step(tss: Tss, i: Instr, h: Handler, argument: Reg, c: Cpu): Cpu
    decreases HandlerSize(h), 2
  {
    if i.Call? then Invoke(tss, h, argument, c) else Exec(i, c)
  }

  /** The call: push the return address, run the handler, return to it. */
  function Invoke(tss: Tss, h: Handler, argument: Reg, c: Cpu): Cpu
    decreases HandlerSize(h), 1
  {
    Handle(tss, h, argument, c.rsp, PushWord(c, c.rip + 1))
  }

  function Handle(tss: Tss, h: Handler, argument: Reg, frame: int, c: Cpu): Cpu
    decreases HandlerSize(h), 0
  {
    match h
    case Return => c.(rip := Load(c.mem, frame - 8), rsp := frame)
    case Interrupted(i, rest) => Handle(tss, rest, argument, frame, Take(tss, i, argument, c))
    case _ => Handle(tss, h.rest, argument, frame, Act(h, frame, c))
  }

  /** A single action of a handler. */
  function Act(h: Handler, frame: int, c: Cpu): Cpu
    requires !h.Return? && !h.Interrupted?
  {
    match h
    case SetReg(r, w, _) => c.(regs := c.regs[r := w])
    case SetFlags(w, _) => c.(rflags := w)
    case Store(below, w, _) => c.(mem := c.mem[frame - 16 - below := w])
    case MoveRsp(depth, _) => c.(rsp := frame - 8 - depth)
  }

  // ------------------------------------------------------- stacks that suffice

  /** How an instruction moves the stack pointer. */
  function Moved(i: Instr, rsp: int): int {
    match i
    case Push(_) => rsp - 8
    case PushImm(_) => rsp - 8
    case Pop(_) => rsp + 8
    case AddRsp(n) => rsp + n
    case _ => rsp
  }

  function EntryRsp(tss: Tss, i: Irq, rsp: int): int {
    EntryBase(tss, IstOf(i.num), rsp) - if i.error.Some? then 48 else 40
  }

  /** The vectors for which the processor pushes an error code (Intel SDM, Vol. 3A,
      section 6.13 and table 6-1). */
  predicate PushesErrorCode(num: nat) { num in {8, 10, 11, 12, 13, 14, 17, 21} }

  /** The event comes with an error code exactly if its vector's pusher expects one. */
  predicate Agrees(i: Irq) { i.error.Some? <==> ExpectsErrorCode(i.num) }

  /** The bottom of the stack on which a vector's pusher runs. */
  function Bottom(tss: Tss, num: nat, floor: int): int {
    if IstOf(num) == 0 then floor else Top(tss, IstOf(num)) - STACK_SIZE
  }

  /** An interrupt taken at stack pointer `rsp`, and all that is nested in it, agree
      with their pushers and stay above the bottoms of their stacks; that of the
      current one is `floor`. */
  predicate Fits(tss: Tss, i: Irq, argument: Reg, floor: int, rsp: int)
    decreases IrqSize(i), 0
  {
    var bottom := Bottom(tss, i.num, floor);
    var e := EntryRsp(tss, i, rsp);
    Agrees(i) && bottom <= e && RunFits(tss, Pusher(i.num, argument), i.steps, i.handler, argument, bottom, e)
  }

  predicate RunFits(tss: Tss, code: seq<Instr>, steps: Steps, h: Handler, argument: Reg, floor: int, rsp: int)
    decreases StepsSize(steps) + HandlerSize(h), |code| + 3
  {
    if steps.Arrives? then
      Fits(tss, steps.irq, argument, floor, rsp) && RunFits(tss, code, steps.rest, h, argument, floor, rsp)
    else if code == [] then true
    else
      && floor <= Moved(code[0], rsp)
      && (code[0].Call? ==> floor <= rsp - 8 && HandlerFits(tss, h, argument, floor, rsp, rsp - 8))
      && RunFits(tss, code[1..], Later(steps), h, argument, floor, Moved(code[0], rsp))
  }

  predicate HandlerFits(tss: Tss, h: Handler, argument: Reg, floor: int, frame: int, rsp: int)
    decreases HandlerSize(h), 0
  {
    match h
    case Return => true
    case Store(below, _, rest) => floor <= frame - 16 - below && HandlerFits(tss, rest, argument, floor, frame, rsp)
    case MoveRsp(depth, rest) =>
      floor <= frame - 8 - depth && HandlerFits(tss, rest, argument, floor, frame, frame - 8 - depth)
    case Interrupted(i, rest) =>
      Fits(tss, i, argument, floor, rsp) && HandlerFits(tss, rest, argument, floor, frame, rsp)
    case _ => HandlerFits(tss, h.rest, argument, floor, frame, rsp)
  }

  // ---------------------------------------------------------- stacks in use

  /** The interrupt stacks left free once a vector's pusher is running. */
  function FreeAfter(num: nat, free: set<nat>): set<nat> { free - {IstOf(num)} }

  /** No vector arrives whose interrupt stack is in use at that moment: `free` are
      the interrupt stacks not in use. */
  predicate Free(i: Irq, argument: Reg, free: set<nat>)
    decreases IrqSize(i), 0
  {
    && (IstOf(i.num) == 0 || IstOf(i.num) in free)
    && RunFree(Pusher(i.num, argument), i.steps, i.handler, argument, FreeAfter(i.num, free))
  }

  predicate RunFree(code: seq<Instr>, steps: Steps, h: Handler, argument: Reg, free: set<nat>)
    decreases StepsSize(steps) + HandlerSize(h), |code| + 3
  {
    if steps.Arrives? then Free(steps.irq, argument, free) && RunFree(code, steps.rest, h, argument, free)
    else if code == [] then true
    else (code[0].Call? ==> HandlerFree(h, argument, free)) && RunFree(code[1..], Later(steps), h, argument, free)
  }

  predicate HandlerFree(h: Handler, argument: Reg, free: set<nat>)
    decreases HandlerSize(h), 0
  {
    match h
    case Return => true
    case Interrupted(i, rest) => Free(i, argument, free) && HandlerFree(rest, argument, free)
    case _ => HandlerFree(h.rest, argument, free)
  }
}
