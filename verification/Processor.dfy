/** The stack machine as a machine: registers and stack words changed in place,
    one instruction after another. */
module Processor {
  import opened Options
  import opened StackMachine
  import opened Interrupts

  class Processor {
    var regs: Regs
    var rsp: int
    var rip: Quad
    var cs: Quad
    var rflags: Quad
    var ss: Quad
    var mem: map<int, Quad>
    const tss: Tss  // the interrupt stacks' tops

    constructor (c: Cpu, tss: Tss)
      ensures State() == c && this.tss == tss
    {
      this.tss := tss;
      regs, rsp, rip, cs, rflags, ss, mem := c.regs, c.rsp, c.rip, c.cs, c.rflags, c.ss, c.mem;
    }

    function State(): Cpu
      reads this
    {
      Cpu(regs, rsp, rip, cs, rflags, ss, mem)
    }

    method PushValue(w: Quad)
      modifies this
      ensures State() == PushWord(old(State()), w)
    {
      rsp := rsp - 8;
      mem := mem[rsp := w];
    }

    method PopValue() returns (w: Quad)
      modifies this
      ensures w == Load(old(mem), old(rsp)) && State() == old(State()).(rsp := old(rsp) + 8)
    {
      w := Load(mem, rsp);
      rsp := rsp + 8;
    }

    method Execute(i: Instr)
      requires !i.Call?
      modifies this
      ensures State() == Exec(i, old(State()))
    {
      match i {
        case Push(r) => PushValue(regs[r]);
        case PushImm(w) => PushValue(w);
        case Pop(r) =>
          var w := PopValue();
          regs := regs[r := w];
        case MovRsp(r) =>
          var top: Quad := rsp;
          regs := regs[r := top];
        case MovImm(r, w) => regs := regs[r := w];
        case AddRsp(n) => rsp := rsp + n;
        case Cld => rflags := ClearDirection(rflags);
      }
      rip := rip + 1;
    }

    method PushFlagsAndReturn(oldFlags: Quad, oldCs: Quad, oldRip: Quad)
      modifies this
      ensures State() == PushWord(PushWord(PushWord(old(State()), oldFlags), oldCs), oldRip)
    {
      PushValue(oldFlags);
      PushValue(oldCs);
      PushValue(oldRip);
    }

    /** Entry through a gate that selects interrupt stack `ist`, or none. */
    method EnterInterrupt(ist: nat, error: Option<Quad>, target: Quad, flags: Quad)
      requires ist <= 4
      modifies this
      ensures State() == Enter(tss, ist, old(State()), error, target, flags)
    {
      var oldRsp, oldFlags, oldCs, oldRip := rsp, rflags, cs, rip;
      if ist != 0 {
        rsp := tss[ist - 1];
      }
      rsp, rip, cs, rflags := rsp - rsp % 16, target, 8, flags;
      assert rsp == EntryBase(tss, ist, oldRsp);
      hide PushWord, EntryBase;
      PushValue(ss);
      PushValue(oldRsp);
      PushFlagsAndReturn(oldFlags, oldCs, oldRip);
      if error.Some? {
        PushValue(error.value);
      }
    }

    method ReturnFromInterrupt()
      modifies this
      ensures State() == Iretq(old(State()))
    {
      var newRip := PopValue();
      var newCs := PopValue();
      var newFlags := PopValue();
      var newRsp := PopValue();
      var newSs := PopValue();
      rip, cs, rflags, rsp, ss := newRip, newCs, newFlags, newRsp, newSs;
    }

    /** An interrupt from its entry to its iretq, with all that is nested in it: the
        interrupted context is unharmed when no stack in use is entered again and
        none overflows. */
    method Service(i: Irq, argument: Reg, ghost p: Place)
      requires argument in {RDI, RCX}
      modifies this
      ensures State() == Take(tss, i, argument, old(State()))
      ensures Placed(tss, p) && old(rsp) <= p.top && Fits(tss, i, argument, p.floor, old(rsp)) && Free(i, argument, p.free)
        ==> Unharmed(tss, p, old(State()), State())
      decreases IrqSize(i), 0
    {
      hide Fits, Free, Placed, Unharmed, Enter;
      if Placed(tss, p) && rsp <= p.top && Fits(tss, i, argument, p.floor, rsp) && Free(i, argument, p.free) {
        Transparent(tss, p, i, argument, State());
      }
      IstBound(i.num);
      EnterInterrupt(IstOf(i.num), i.error, i.target, i.flags);
      RunCode(Pusher(i.num, argument), i.steps, i.handler, argument, p);
      ReturnFromInterrupt();
    }

    method RunCode(code: seq<Instr>, steps: Steps, h: Handler, argument: Reg, ghost p: Place)
      requires argument in {RDI, RCX}
      modifies this
      ensures State() == Run(tss, code, steps, h, argument, old(State()))
      decreases StepsSize(steps) + HandlerSize(h), |code| + 3
    {
      var rest, left := code, steps;
      while left.Arrives? || rest != []
        invariant Run(tss, rest, left, h, argument, State()) == Run(tss, code, steps, h, argument, old(State()))
        invariant StepsSize(left) <= StepsSize(steps) && |rest| <= |code|
        decreases StepsSize(left), |rest|
      {
        if left.Arrives? {
          Service(left.irq, argument, p);
          left := left.rest;
        } else {
          if rest[0].Call? {
            CallHandler(h, argument, p);
          } else {
            Execute(rest[0]);
          }
          rest, left := rest[1..], Later(left);
        }
      }
    }

    method CallHandler(h: Handler, argument: Reg, ghost p: Place)
      requires argument in {RDI, RCX}
      modifies this
      ensures State() == Invoke(tss, h, argument, old(State()))
      decreases HandlerSize(h), 1
    {
      var frame := rsp;
      PushValue(rip + 1);
      RunHandler(h, argument, frame, p);
    }

    method RunHandler(h: Handler, argument: Reg, frame: int, ghost p: Place)
      requires argument in {RDI, RCX}
      modifies this
      ensures State() == Handle(tss, h, argument, frame, old(State()))
      decreases HandlerSize(h), 0
    {
      match h {
        case Return =>
          rsp := frame - 8;
          rip := PopValue();
        case SetReg(r, w, rest) =>
          regs := regs[r := w];
          RunHandler(rest, argument, frame, p);
        case SetFlags(w, rest) =>
          rflags := w;
          RunHandler(rest, argument, frame, p);
        case Store(below, w, rest) =>
          mem := mem[frame - 16 - below := w];
          RunHandler(rest, argument, frame, p);
        case MoveRsp(depth, rest) =>
          rsp := frame - 8 - depth;
          RunHandler(rest, argument, frame, p);
        case Interrupted(i, rest) =>
          Service(i, argument, p);
          RunHandler(rest, argument, frame, p);
      }
    }
  }
}
