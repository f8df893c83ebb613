/** From an interrupt vector to the frame its handler sees. */
module Dispatch {
  import opened Words
  import opened StackMachine
  import opened Interrupts
  import opened InterruptTable

  /** The code at each pusher's address. */
  ghost predicate Linked(text: map<nat, seq<Instr>>, pushers: seq<Address>, argument: Reg)
    requires |pushers| == 256
  {
    forall v: nat | v < 256 :: pushers[v] in text && text[pushers[v]] == Pusher(v, argument)
  }

  /** The processor follows gate v of an initialized table to the pusher of v, on
      the stack that gate selects; the handler that pusher calls finds v, the error
      code and the interrupted registers in its frame, whatever interrupts come in
      between; and after the handler's return and iretq the interrupted context is
      unharmed.  No stack may overflow and none in use be entered again. */
  lemma VectorServed(gates: seq<Gate>, pushers: seq<Address>, text: map<nat, seq<Instr>>, argument: Reg,
                     tss: Tss, p: Place, i: Irq, c: Cpu)
    requires |gates| == 256 && |pushers| == 256 && argument in {RDI, RCX}
    requires forall v | 0 <= v < 256 :: Reaches(gates[v], pushers[v], KindOf(v))
    requires Linked(text, pushers, argument)
    requires i.num < 256 && i.target == Target(gates[i.num])
    requires Placed(tss, p) && c.rsp <= p.top
    requires Fits(tss, i, argument, p.floor, c.rsp) && Free(i, argument, p.free)
    ensures i.target in text && BeforeCall(i.num, argument) <= text[i.target]
    ensures var e := Enter(tss, gates[i.num].istAndZero, c, i.error, i.target, i.flags);
            var s := Run(tss, text[i.target][..|BeforeCall(i.num, argument)|], i.steps, Return, argument, e);
            && e.rip == pushers[i.num] && e.cs == gates[i.num].segmentSelector && e.rflags == i.flags
            && s.regs[argument] == s.rsp
            && FrameAt(i.num, s.mem, s.rsp) == FrameOf(c, i.num, i.error)
            && Unharmed(tss, p, c, Iretq(Run(tss, text[i.target], i.steps, i.handler, argument, e)))
  {
    EntryState(tss, gates[i.num].istAndZero, i, c);
    hide Run, Enter, Reaches, Unharmed, Slice, Fits, Free, Placed;
    GateTarget(gates[i.num], pushers[i.num], KindOf(i.num));
    var before := BeforeCall(i.num, argument);
    assert text[i.target] == before + ([Call] + AfterCall(i.num));
    assert text[i.target][..|before|] == before;
    HandlerSeesFrame(tss, p, i, argument, c);
    Transparent(tss, p, i, argument, c);
  }

  lemma EntryState(tss: Tss, ist: nat, i: Irq, c: Cpu)
    ensures var e := Enter(tss, ist, c, i.error, i.target, i.flags); e.rip == i.target && e.cs == 8 && e.rflags == i.flags
  {}

  lemma GateTarget(g: Gate, target: Address, k: Kind)
    requires Reaches(g, target, k)
    ensures Target(g) == target && g.istAndZero == Stack(k) && g.segmentSelector == 8
  {}

  /** A double fault in the machine check handler, and a breakpoint in the breakpoint
      handler, lose the context their handlers interrupted: gates 8 and 18, through
      the wrong setter, and gate 3 with itself, select one stack. */
  lemma SharedStackLost(gates: seq<Gate>, pushers: seq<Address>, tss: Tss, i: Irq, j: Irq, rest: Handler,
                        argument: Reg, p: Place, c: Cpu)
    requires |gates| == 256 && |pushers| == 256 && argument in {RDI, RCX}
    requires forall v | 0 <= v < 256 :: Reaches(gates[v], pushers[v], KindOf(v))
    requires (i.num, j.num) in {(18, 8), (8, 18), (3, 3), (8, 8)}
    requires i.steps == Quiet && i.handler == Interrupted(j, rest) && Calm(rest)
    requires j.steps == Quiet && Calm(j.handler)
    requires Placed(tss, p) && p.free == {1, 2, 3, 4} && p.floor <= c.rsp < p.top
    requires Fits(tss, i, argument, p.floor, c.rsp)
    ensures gates[i.num].istAndZero == gates[j.num].istAndZero != 0
    ensures Take(tss, i, argument, c).rsp != c.rsp
  {
    hide Reaches, Fits, Take;
    GateTarget(gates[i.num], pushers[i.num], KindOf(i.num));
    GateTarget(gates[j.num], pushers[j.num], KindOf(j.num));
    SameStackLost(tss, i, j, rest, argument, p.floor, c);
    assert IstOf(i.num) in p.free;
  }

  /** The simplest such run: whatever the stacks and the context, a vector's handler
      that is interrupted at once by one with the same stack. */
  lemma SharedStackRuns(tss: Tss, i: Irq, j: Irq, argument: Reg, p: Place, c: Cpu)
    requires argument in {RDI, RCX} && Placed(tss, p) && p.free == {1, 2, 3, 4} && p.floor <= c.rsp < p.top
    requires (i.num, j.num) in {(18, 8), (8, 18), (3, 3), (8, 8)}
    requires i.steps == Quiet && i.handler == Interrupted(j, Return) && j.steps == Quiet && j.handler == Return
    requires Agrees(i) && Agrees(j)
    ensures Fits(tss, i, argument, p.floor, c.rsp) && !Free(i, argument, p.free)
    ensures !Faithful(tss, p, i, argument, c) && Take(tss, i, argument, c).rsp != c.rsp
  {
    hide Fits, Free, Faithful, Take;
    TwiceFits(tss, i, j, argument, p.floor, c.rsp);
    SameStackLost(tss, i, j, Return, argument, p.floor, c);
    NestingExact(tss, p, i, argument, c);
    assert IstOf(i.num) in p.free;
  }
}
