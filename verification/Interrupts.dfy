/** Interrupts leave no trace as long as no interrupt stack is entered twice:
    whatever is nested inside them, and wherever, each interrupted context comes
    back as it was. */
module Interrupts {
  import opened Options
  import opened StackMachine

  // ------------------------------------------------------- straight-line code

  function ExecAll(code: seq<Instr>, c: Cpu): Cpu {
    if code == [] then c else ExecAll(code[1..], Exec(code[0], c))
  }

  predicate NoCall(code: seq<Instr>) {
    forall i | i in code :: !i.Call?
  }

  lemma {:induction false} ExecAppend(a: seq<Instr>, b: seq<Instr>, c: Cpu)
    ensures ExecAll(a + b, c) == ExecAll(b, ExecAll(a, c))
  {
    if a == [] {
      assert a + b == b;
    } else {
      assert (a + b)[1..] == a[1..] + b;
      ExecAppend(a[1..], b, Exec(a[0], c));
    }
  }

  lemma ExecOne(i: Instr, c: Cpu)
    ensures ExecAll([i], c) == Exec(i, c)
  {
    assert ExecAll([i], c) == ExecAll([i][1..], Exec(i, c)) == ExecAll([], Exec(i, c));
  }

  /** Pushes of registers n-1 down to 0. */
  function PushDown(n: nat): seq<Instr>
    requires n <= 15
  {
    if n == 0 then [] else [Push(n - 1)] + PushDown(n - 1)
  }

  /** Pops of registers k up to 14. */
  function PopUp(k: nat): seq<Instr>
    requires k <= 15
    decreases 15 - k
  {
    if k == 15 then [] else [Pop(k)] + PopUp(k + 1)
  }

  lemma {:induction false} PushDownAt(n: nat)
    requires n <= 15
    ensures |PushDown(n)| == n && forall j | 0 <= j < n :: PushDown(n)[j] == Push(n - 1 - j)
  {
    if n > 0 {
      PushDownAt(n - 1);
    }
  }

  lemma {:induction false} PopUpAt(k: nat)
    requires k <= 15
    ensures |PopUp(k)| == 15 - k && forall j | 0 <= j < 15 - k :: PopUp(k)[j] == Pop(k + j)
    decreases 15 - k
  {
    if k < 15 {
      PopUpAt(k + 1);
    }
  }

  lemma SaveIs()
    ensures SAVE_ISR_REGISTERS == [Push(RBP), MovRsp(RBP)] + PushDown(14) + [Cld]
  {
    hide PushDown;
    PushDownAt(14);
    assert SAVE_ISR_REGISTERS[..2] == [Push(RBP), MovRsp(RBP)];
    assert SAVE_ISR_REGISTERS[2..16] == PushDown(14);
    assert SAVE_ISR_REGISTERS[16..] == [Cld];
  }

  lemma RestoreIs()
    ensures RESTORE_ISR_REGISTERS == PopUp(0)
  {
    hide PopUp;
    PopUpAt(0);
  }

  /** `c'` differs from `c` in no (aligned) word outside lo .. hi. */
  ghost predicate Keeps(lo: int, hi: int, c: Cpu, c': Cpu) {
    forall x | x % 8 == 0 && !(lo <= x < hi) :: Load(c'.mem, x) == Load(c.mem, x)
  }

  lemma KeepsTrans(lo: int, hi: int, lo1: int, hi1: int, lo2: int, hi2: int, c: Cpu, c1: Cpu, c2: Cpu)
    requires Keeps(lo1, hi1, c, c1) && Keeps(lo2, hi2, c1, c2)
    requires lo <= lo1 && hi1 <= hi && lo <= lo2 && hi2 <= hi
    ensures Keeps(lo, hi, c, c2)
  {
    hide Load;
  }

  lemma {:induction false} PushDownAll(n: nat, c: Cpu)
    requires n <= 15 && c.rsp % 8 == 0
    ensures var s := ExecAll(PushDown(n), c);
            && s.rsp == c.rsp - 8 * n && s.regs == c.regs && s.cs == c.cs && s.ss == c.ss && s.rflags == c.rflags
            && Keeps(s.rsp, c.rsp, c, s)
            && forall j | 0 <= j < n :: Load(s.mem, s.rsp + 8 * j) == c.regs[j]
  {
    hide Exec, Load;
    if n > 0 {
      var c1 := Exec(Push(n - 1), c);
      PushStep(n - 1, c);
      assert PushDown(n)[1..] == PushDown(n - 1);
      PushDownAll(n - 1, c1);
    }
  }

  lemma PushStep(r: Reg, c: Cpu)
    ensures var c1 := Exec(Push(r), c);
            && c1.rsp == c.rsp - 8 && c1.regs == c.regs && c1.cs == c.cs && c1.ss == c.ss && c1.rflags == c.rflags
            && Keeps(c1.rsp, c.rsp, c, c1) && Load(c1.mem, c1.rsp) == c.regs[r]
  {}

  lemma {:induction false} PopUpAll(k: nat, c: Cpu)
    requires k <= 15
    ensures var s := ExecAll(PopUp(k), c);
            && s.rsp == c.rsp + 8 * (15 - k) && s.mem == c.mem && s.cs == c.cs && s.ss == c.ss
            && s.regs == c.regs[..k] + Slice(c.mem, c.rsp, 15 - k)
    decreases 15 - k
  {
    hide Slice, Load;
    if k < 15 {
      var c1 := Exec(Pop(k), c);
      assert PopUp(k)[1..] == PopUp(k + 1);
      PopUpAll(k + 1, c1);
      PopSlice(c.regs, c.mem, c.rsp, k);
    } else {
      assert c.regs[..15] + Slice(c.mem, c.rsp, 0) == c.regs;
    }
  }

  lemma PopSlice(regs: Regs, mem: map<int, Quad>, a: int, k: nat)
    requires k < 15
    ensures regs[k := Load(mem, a)][..k + 1] + Slice(mem, a + 8, 14 - k) == regs[..k] + Slice(mem, a, 15 - k)
  {
    hide Load;
    var s := Slice(mem, a, 15 - k);
    assert s[1..] == Slice(mem, a + 8, 14 - k);
    assert s == [Load(mem, a)] + s[1..];
    assert regs[k := Load(mem, a)][..k + 1] == regs[..k] + [Load(mem, a)];
  }

  /** SAVE_ISR_REGISTERS lays the registers out in frame order. */
  lemma Saved(c: Cpu)
    requires c.rsp % 8 == 0
    ensures var s := ExecAll(SAVE_ISR_REGISTERS, c);
            && s.rsp == c.rsp - 120 && s.cs == c.cs && s.ss == c.ss
            && s.regs[RBP] == c.rsp - 8 && s.rflags == ClearDirection(c.rflags)
            && Keeps(s.rsp, c.rsp, c, s)
            && Slice(s.mem, s.rsp, 15) == c.regs
  {
    SaveIs();
    SavedBy([Push(RBP), MovRsp(RBP)], PushDown(14), c);
  }

  lemma SavedBy(first: seq<Instr>, pushes: seq<Instr>, c: Cpu)
    requires first == [Push(RBP), MovRsp(RBP)] && pushes == PushDown(14) && c.rsp % 8 == 0
    ensures var s := ExecAll(first + pushes + [Cld], c);
            && s.rsp == c.rsp - 120 && s.cs == c.cs && s.ss == c.ss
            && s.regs[RBP] == c.rsp - 8 && s.rflags == ClearDirection(c.rflags)
            && Keeps(s.rsp, c.rsp, c, s)
            && Slice(s.mem, s.rsp, 15) == c.regs
  {
    var c2 := Exec(MovRsp(RBP), Exec(Push(RBP), c));
    EntryState(c);
    hide Exec, ExecAll, PushDown, Slice, Load, Keeps, ClearDirection;
    ExecTwo(Push(RBP), MovRsp(RBP), c);
    ExecAppend(first + pushes, [Cld], c);
    ExecAppend(first, pushes, c);
    PushDownAll(14, c2);
    var c3 := ExecAll(pushes, c2);
    ExecOne(Cld, c3);
    CldState(c3);
    assert c3.rflags == c2.rflags == c.rflags;
    SameMem(c2, c3, Exec(Cld, c3));
    SavedSlice(c, c2, Exec(Cld, c3));
  }

  lemma EntryState(c: Cpu)
    ensures var c2 := Exec(MovRsp(RBP), Exec(Push(RBP), c));
            && c2.rsp == c.rsp - 8 && c2.mem == c.mem[c.rsp - 8 := c.regs[RBP]] && c2.cs == c.cs && c2.ss == c.ss
            && c2.regs[RBP] == c.rsp - 8 && c2.rflags == c.rflags
            && forall j | 0 <= j < 14 :: c2.regs[j] == c.regs[j]
  {}

  /** Bit 10 is cleared, and no other bit changes. */
  lemma DirectionCleared(flags: nat)
    ensures var f := ClearDirection(flags); f / 1024 % 2 == 0 && f % 1024 == flags % 1024 && f / 2048 == flags / 2048
  {
    var q, r := flags / 2048, flags % 2048;
    assert flags == 2048 * q + r;
    assert flags / 1024 == 2 * q + r / 1024;
  }

  lemma CldState(c: Cpu)
    ensures var s := Exec(Cld, c);
            && s.rsp == c.rsp && s.mem == c.mem && s.cs == c.cs && s.ss == c.ss && s.regs == c.regs
            && s.rflags == ClearDirection(c.rflags)
  {}

  lemma SameMem(c2: Cpu, c3: Cpu, s: Cpu)
    requires Keeps(c3.rsp, c2.rsp, c2, c3) && s.mem == c3.mem
    ensures Keeps(c3.rsp, c2.rsp, c2, s)
  {}

  lemma ExecTwo(i: Instr, j: Instr, c: Cpu)
    ensures ExecAll([i, j], c) == Exec(j, Exec(i, c))
  {
    assert [i, j][1..] == [j];
    ExecOne(j, Exec(i, c));
  }

  lemma SavedSlice(c: Cpu, c2: Cpu, s: Cpu)
    requires c.rsp % 8 == 0 && c2.rsp == c.rsp - 8 && c2.mem == c.mem[c.rsp - 8 := c.regs[RBP]]
    requires forall j | 0 <= j < 14 :: c2.regs[j] == c.regs[j]
    requires Keeps(s.rsp, c2.rsp, c2, s) && s.rsp == c2.rsp - 112
    requires forall j | 0 <= j < 14 :: Load(s.mem, s.rsp + 8 * j) == c2.regs[j]
    ensures Keeps(s.rsp, c.rsp, c, s) && Slice(s.mem, s.rsp, 15) == c.regs
  {
    assert Load(s.mem, s.rsp + 8 * 14) == c.regs[RBP];
  }

  /** RESTORE_ISR_REGISTERS takes them back. */
  lemma Restored(c: Cpu)
    ensures var s := ExecAll(RESTORE_ISR_REGISTERS, c);
            && s.rsp == c.rsp + 120 && s.mem == c.mem && s.regs == Slice(c.mem, c.rsp, 15)
            && s.cs == c.cs && s.ss == c.ss
  {
    RestoreIs();
    PopUpAll(0, c);
  }

  // ------------------------------------------------- runs without interrupts

  lemma {:induction false} QuietRun(tss: Tss, a: seq<Instr>, b: seq<Instr>, h: Handler, argument: Reg, c: Cpu)
    requires NoCall(a)
    ensures Run(tss, a + b, Quiet, h, argument, c) == Run(tss, b, Quiet, h, argument, ExecAll(a, c))
  {
    if a == [] {
      assert a + b == b;
    } else {
      assert (a + b)[1..] == a[1..] + b && (a + b)[0] == a[0] && a[0] in a;
      assert forall i | i in a[1..] :: i in a;
      QuietRun(tss, a[1..], b, h, argument, Exec(a[0], c));
    }
  }

  lemma QuietPusher(tss: Tss, num: nat, h: Handler, argument: Reg, c: Cpu)
    ensures Run(tss, Pusher(num, argument), Quiet, h, argument, c)
         == ExecAll(AfterCall(num), Invoke(tss, h, argument, ExecAll(BeforeCall(num, argument), c)))
  {
    hide BeforeCall, AfterCall, Invoke, Exec;
    var before, after := BeforeCall(num, argument), AfterCall(num);
    var c1 := ExecAll(before, c);
    assert Pusher(num, argument) == before + ([Call] + after);
    NoCallAround(num, argument);
    QuietRun(tss, before, [Call] + after, h, argument, c);
    assert ([Call] + after)[1..] == after;
    var c2 := Invoke(tss, h, argument, c1);
    assert Run(tss, [Call] + after, Quiet, h, argument, c1) == Run(tss, after, Quiet, h, argument, c2);
    assert after + [] == after;
    QuietRun(tss, after, [], h, argument, c2);
  }

  lemma NoCallAround(num: nat, argument: Reg)
    ensures NoCall(BeforeCall(num, argument)) && NoCall(AfterCall(num))
  {
    hide SAVE_ISR_REGISTERS, RESTORE_ISR_REGISTERS;
    NoAdds();
  }

  // ---------------------------------------------------------------- frames

  /** INTERRUPT_FRAME and EXCEPTION_FRAME, by their fields' offsets. */
  datatype TrapFrame = TrapFrame(isrNum: Quad, errorCode: Quad, regs: seq<Quad>,
                         rip: Quad, cs: Quad, rflags: Quad, rsp: Quad, ss: Quad)

  function InterruptFrame(mem: map<int, Quad>, p: int): TrapFrame {
    TrapFrame(Load(mem, p), 0, Slice(mem, p + 8, 15), Load(mem, p + 128), Load(mem, p + 136), Load(mem, p + 144),
          Load(mem, p + 152), Load(mem, p + 160))
  }

  function ExceptionFrame(mem: map<int, Quad>, p: int): TrapFrame {
    TrapFrame(Load(mem, p + 120), Load(mem, p + 128), Slice(mem, p, 15), Load(mem, p + 136), Load(mem, p + 144),
          Load(mem, p + 152), Load(mem, p + 160), Load(mem, p + 168))
  }

  /** The struct the vector's handler is declared with. */
  function FrameAt(num: nat, mem: map<int, Quad>, p: int): TrapFrame {
    if ExpectsErrorCode(num) then ExceptionFrame(mem, p) else InterruptFrame(mem, p)
  }

  function FrameOf(c: Cpu, num: nat, error: Option<Quad>): TrapFrame {
    TrapFrame(num, if error.Some? then error.value else 0, c.regs, c.rip, c.cs, c.rflags, c.rsp, c.ss)
  }

  /** What interrupt entry leaves on the stack. */
  lemma EntryFrame(tss: Tss, i: Irq, c: Cpu)
    ensures var e := Entered(tss, i, c);
            var base := EntryBase(tss, IstOf(i.num), c.rsp);
            var p := base - 40;
            && e.rsp == EntryRsp(tss, i, c.rsp) && e.rsp == (if i.error.Some? then p - 8 else p)
            && p % 8 == 0 && e.rsp % 8 == 0 && e.regs == c.regs
            && Load(e.mem, p) == c.rip && Load(e.mem, p + 8) == c.cs && Load(e.mem, p + 16) == c.rflags
            && Load(e.mem, p + 24) == c.rsp && Load(e.mem, p + 32) == c.ss
            && (i.error.Some? ==> Load(e.mem, e.rsp) == i.error.value)
            && Keeps(e.rsp, base, c, e)
  {
    hide Load, EntryBase, IstOf;
    BaseAligned(tss, IstOf(i.num), c.rsp);
    FiveWords(c.mem, EntryBase(tss, IstOf(i.num), c.rsp), c.ss, c.rsp, c.rflags, c.cs, c.rip,
              if i.error.Some? then i.error.value else 0);
  }

  lemma BaseAligned(tss: Tss, ist: nat, rsp: int)
    ensures EntryBase(tss, ist, rsp) % 8 == 0 && (EntryBase(tss, ist, rsp) - 40) % 8 == 0
    ensures (EntryBase(tss, ist, rsp) - 48) % 8 == 0
  {
    AlignDown(rsp);
    AlignDown(Top(tss, ist));
  }

  lemma AlignDown(a: int)
    ensures (a - a % 16) % 8 == 0
  {
    assert a - a % 16 == 8 * (2 * (a / 16));
  }

  /** The words pushed at entry, from the aligned stack pointer `b` down. */
  lemma FiveWords(m: map<int, Quad>, b: int, w1: Quad, w2: Quad, w3: Quad, w4: Quad, w5: Quad, w6: Quad)
    ensures var f := m[b - 8 := w1][b - 16 := w2][b - 24 := w3][b - 32 := w4][b - 40 := w5];
            var g := f[b - 48 := w6];
            && Load(f, b - 40) == w5 && Load(f, b - 32) == w4 && Load(f, b - 24) == w3 && Load(f, b - 16) == w2
            && Load(f, b - 8) == w1
            && Load(g, b - 40) == w5 && Load(g, b - 32) == w4 && Load(g, b - 24) == w3 && Load(g, b - 16) == w2
            && Load(g, b - 8) == w1 && Load(g, b - 48) == w6
            && (forall x | !(b - 40 <= x < b) :: Load(f, x) == Load(m, x))
            && (forall x | !(b - 48 <= x < b) :: Load(g, x) == Load(m, x))
  {}

  /** A pusher's state at its call: the argument register and the stack pointer
      point at the frame. */
  lemma BeforeCallState(num: nat, argument: Reg, e: Cpu)
    requires argument in {RDI, RCX} && e.rsp % 8 == 0
    ensures var s := ExecAll(BeforeCall(num, argument), e);
            && s.rsp == e.rsp - 128 && s.regs[argument] == s.rsp && s.cs == e.cs && s.ss == e.ss
            && s.regs[RAX] == 0 && s.rflags == ClearDirection(e.rflags)
            && s.regs[RBP] == s.rsp + (if ExpectsErrorCode(num) then 112 else 120)
            && Keeps(s.rsp, e.rsp, e, s)
            && if ExpectsErrorCode(num) then Slice(s.mem, s.rsp, 15) == e.regs && Load(s.mem, s.rsp + 120) == num
               else Slice(s.mem, s.rsp + 8, 15) == e.regs && Load(s.mem, s.rsp) == num
  {
    hide Slice, SAVE_ISR_REGISTERS, ExecAll, Exec, Load;
    var tail := [MovRsp(argument), MovImm(RAX, 0)];
    if ExpectsErrorCode(num) {
      var e1 := Exec(PushImm(num), e);
      ExecAppend([PushImm(num)] + SAVE_ISR_REGISTERS, tail, e);
      ExecAppend([PushImm(num)], SAVE_ISR_REGISTERS, e);
      ExecOne(PushImm(num), e);
      PushImmStep(num, e);
      Saved(e1);
      TailStep(argument, ExecAll(SAVE_ISR_REGISTERS, e1));
    } else {
      var e1 := ExecAll(SAVE_ISR_REGISTERS, e);
      Saved(e);
      assert SAVE_ISR_REGISTERS + [PushImm(num), MovRsp(argument), MovImm(RAX, 0)]
          == SAVE_ISR_REGISTERS + [PushImm(num)] + tail;
      ExecAppend(SAVE_ISR_REGISTERS + [PushImm(num)], tail, e);
      ExecAppend(SAVE_ISR_REGISTERS, [PushImm(num)], e);
      ExecOne(PushImm(num), e1);
      var e2 := Exec(PushImm(num), e1);
      PushImmStep(num, e1);
      TailStep(argument, e2);
      SliceKept(e1.mem, e2.mem, e1.rsp, 15);
    }
  }

  lemma PushImmStep(w: Quad, c: Cpu)
    ensures var c1 := Exec(PushImm(w), c);
            && c1.rsp == c.rsp - 8 && c1.regs == c.regs && c1.cs == c.cs && c1.ss == c.ss && c1.rflags == c.rflags
            && Keeps(c1.rsp, c.rsp, c, c1) && Load(c1.mem, c1.rsp) == w
  {}

  lemma TailStep(argument: Reg, c: Cpu)
    requires argument in {RDI, RCX}
    ensures var s := ExecAll([MovRsp(argument), MovImm(RAX, 0)], c);
            && s.rsp == c.rsp && s.mem == c.mem && s.cs == c.cs && s.ss == c.ss && s.regs[argument] == c.rsp
            && s.regs[RAX] == 0 && s.regs[RBP] == c.regs[RBP] && s.rflags == c.rflags
  {
    ExecTwo(MovRsp(argument), MovImm(RAX, 0), c);
  }

  lemma SliceKept(m: map<int, Quad>, m': map<int, Quad>, a: int, n: nat)
    requires a % 8 == 0 && forall x | a <= x < a + 8 * n && x % 8 == 0 :: Load(m', x) == Load(m, x)
    ensures Slice(m', a, n) == Slice(m, a, n)
  {
    hide Load;
    forall j | 0 <= j < n
      ensures Load(m', a + 8 * j) == Load(m, a + 8 * j)
    {
      WordAligned(a, j);
    }
  }

  lemma WordAligned(a: int, j: int)
    requires a % 8 == 0
    ensures (a + 8 * j) % 8 == 0
  {}

  /** A handler without interrupts. */
  predicate Calm(h: Handler) {
    match h
    case Return => true
    case SetReg(_, _, rest) => Calm(rest)
    case SetFlags(_, rest) => Calm(rest)
    case Store(_, _, rest) => Calm(rest)
    case MoveRsp(_, rest) => Calm(rest)
    case Interrupted(_, _) => false
  }

  lemma {:induction false} CalmHandler(tss: Tss, h: Handler, argument: Reg, floor: int, frame: int, c: Cpu)
    requires Calm(h) && HandlerFits(tss, h, argument, floor, frame, c.rsp)
    ensures var r := Handle(tss, h, argument, frame, c);
            r.rsp == frame && r.cs == c.cs && r.ss == c.ss && Keeps(floor, frame - 8, c, r)
    decreases h
  {
    if !h.Return? {
      var c1 := Act(h, frame, c);
      CalmHandler(tss, h.rest, argument, floor, frame, c1);
      ActKeeps(h, floor, frame, c);
      KeepsTrans(floor, frame - 8, floor, frame - 8, floor, frame - 8, c, c1, Handle(tss, h, argument, frame, c));
    }
  }

  lemma ActKeeps(h: Handler, floor: int, frame: int, c: Cpu)
    requires !h.Return? && !h.Interrupted? && (h.Store? ==> floor <= frame - 16 - h.below)
    ensures Keeps(floor, frame - 8, c, Act(h, frame, c))
  {}

  /** The handler without the interrupts that arrive in it. */
  function Strip(h: Handler): (s: Handler)
    ensures Calm(s)
  {
    match h
    case Return => Return
    case SetReg(r, w, rest) => SetReg(r, w, Strip(rest))
    case SetFlags(w, rest) => SetFlags(w, Strip(rest))
    case Store(below, w, rest) => Store(below, w, Strip(rest))
    case MoveRsp(depth, rest) => MoveRsp(depth, Strip(rest))
    case Interrupted(_, rest) => Strip(rest)
  }

  function MovedAll(code: seq<Instr>, rsp: int): int {
    if code == [] then rsp else MovedAll(code[1..], Moved(code[0], rsp))
  }

  lemma {:induction false} ExecMoves(code: seq<Instr>, c: Cpu)
    ensures ExecAll(code, c).rsp == MovedAll(code, c.rsp)
  {
    if code != [] {
      ExecMoves(code[1..], Exec(code[0], c));
    }
  }

  lemma {:induction false} QuietFits(tss: Tss, a: seq<Instr>, b: seq<Instr>, h: Handler, argument: Reg, floor: int, rsp: int)
    requires NoCall(a) && RunFits(tss, a + b, Quiet, h, argument, floor, rsp)
    ensures RunFits(tss, b, Quiet, h, argument, floor, MovedAll(a, rsp))
  {
    if a == [] {
      assert a + b == b;
    } else {
      assert (a + b)[1..] == a[1..] + b && (a + b)[0] == a[0] && a[0] in a;
      assert forall i | i in a[1..] :: i in a;
      QuietFits(tss, a[1..], b, h, argument, floor, Moved(a[0], rsp));
    }
  }

  /** What fits with interrupts fits without. */
  lemma {:induction false} StripFits(tss: Tss, code: seq<Instr>, steps: Steps, h: Handler, argument: Reg, floor: int, rsp: int)
    requires RunFits(tss, code, steps, h, argument, floor, rsp)
    ensures RunFits(tss, code, Quiet, Strip(h), argument, floor, rsp)
    decreases StepsSize(steps), |code|
  {
    if steps.Arrives? {
      StripFits(tss, code, steps.rest, h, argument, floor, rsp);
    } else if code != [] {
      if code[0].Call? {
        StripHandlerFits(tss, h, argument, floor, rsp, rsp - 8);
      }
      StripFits(tss, code[1..], Later(steps), h, argument, floor, Moved(code[0], rsp));
    }
  }

  lemma {:induction false} StripHandlerFits(tss: Tss, h: Handler, argument: Reg, floor: int, frame: int, rsp: int)
    requires HandlerFits(tss, h, argument, floor, frame, rsp)
    ensures HandlerFits(tss, Strip(h), argument, floor, frame, rsp)
    decreases h
  {
    match h
    case Return =>
    case MoveRsp(depth, rest) => StripHandlerFits(tss, rest, argument, floor, frame, frame - 8 - depth);
    case _ => StripHandlerFits(tss, h.rest, argument, floor, frame, rsp);
  }

  /** An uninterrupted pusher puts every register back, leaves the stack pointer at
      the words iretq takes, and writes between its stack's bottom and there. */
  lemma QuietTransparent(tss: Tss, num: nat, h: Handler, argument: Reg, floor: int, e: Cpu)
    requires argument in {RDI, RCX} && Calm(h) && e.rsp % 8 == 0
    requires RunFits(tss, Pusher(num, argument), Quiet, h, argument, floor, e.rsp)
    ensures var r := Run(tss, Pusher(num, argument), Quiet, h, argument, e);
            && r.regs == e.regs && r.rsp == (if ExpectsErrorCode(num) then e.rsp + 8 else e.rsp)
            && Keeps(floor, e.rsp, e, r)
  {
    hide BeforeCall, AfterCall, Slice, Run, ExecAll, Handle, RunFits, HandlerFits, MovedAll;
    var s := ExecAll(BeforeCall(num, argument), e);
    QuietPusher(tss, num, h, argument, e);
    BeforeCallState(num, argument, e);
    CallFits(tss, num, h, argument, floor, e);
    var v := Invoke(tss, h, argument, s);
    CalmHandler(tss, h, argument, floor, s.rsp, PushWord(s, s.rip + 1));
    InvokeKeeps(tss, h, argument, floor, s, v);
    AfterCallState(num, floor, s, v, e);
  }

  lemma CallFits(tss: Tss, num: nat, h: Handler, argument: Reg, floor: int, e: Cpu)
    requires RunFits(tss, Pusher(num, argument), Quiet, h, argument, floor, e.rsp)
    ensures var s := ExecAll(BeforeCall(num, argument), e);
            floor <= s.rsp - 8 && HandlerFits(tss, h, argument, floor, s.rsp, s.rsp - 8)
  {
    hide BeforeCall, AfterCall, HandlerFits, MovedAll, ExecAll;
    var before, after := BeforeCall(num, argument), AfterCall(num);
    assert Pusher(num, argument) == before + ([Call] + after);
    NoCallAround(num, argument);
    QuietFits(tss, before, [Call] + after, h, argument, floor, e.rsp);
    ExecMoves(before, e);
  }

  lemma InvokeKeeps(tss: Tss, h: Handler, argument: Reg, floor: int, s: Cpu, v: Cpu)
    requires v == Invoke(tss, h, argument, s) && floor <= s.rsp - 8
    requires Keeps(floor, s.rsp - 8, PushWord(s, s.rip + 1), v)
    ensures Keeps(floor, s.rsp, s, v)
  {
    var p := PushWord(s, s.rip + 1);
    assert Keeps(s.rsp - 8, s.rsp, s, p);
    KeepsTrans(floor, s.rsp, s.rsp - 8, s.rsp, floor, s.rsp - 8, s, p, v);
  }

  lemma AfterCallState(num: nat, floor: int, s: Cpu, v: Cpu, e: Cpu)
    requires v.rsp == s.rsp == e.rsp - 128 && e.rsp % 8 == 0 && floor <= s.rsp
    requires Keeps(floor, s.rsp, s, v) && Keeps(s.rsp, e.rsp, e, s)
    requires Slice(s.mem, if ExpectsErrorCode(num) then s.rsp else s.rsp + 8, 15) == e.regs
    ensures var r := ExecAll(AfterCall(num), v);
            && r.regs == e.regs && r.rsp == (if ExpectsErrorCode(num) then e.rsp + 8 else e.rsp)
            && Keeps(floor, e.rsp, e, r)
  {
    hide Slice, Load, RESTORE_ISR_REGISTERS;
    if ExpectsErrorCode(num) {
      ExecAppend(RESTORE_ISR_REGISTERS, [AddRsp(16)], v);
      Restored(v);
      ExecOne(AddRsp(16), ExecAll(RESTORE_ISR_REGISTERS, v));
      SliceKept(s.mem, v.mem, s.rsp, 15);
    } else {
      var v1 := Exec(AddRsp(8), v);
      ExecAppend([AddRsp(8)], RESTORE_ISR_REGISTERS, v);
      ExecOne(AddRsp(8), v);
      Restored(v1);
      SliceKept(s.mem, v.mem, s.rsp + 8, 15);
    }
    KeepsTrans(floor, e.rsp, s.rsp, e.rsp, floor, s.rsp, e, s, v);
  }

  // ---------------------------------------------------- the shape of a pusher

  /** The code keeps the stack pointer a multiple of 8. */
  predicate Aligned(code: seq<Instr>) {
    forall i | i in code && i.AddRsp? :: i.n % 8 == 0
  }

  /** Run `d` bytes below some address, code stays at or below it. */
  predicate Level(code: seq<Instr>, d: int) {
    d >= 0 && (code == [] || Level(code[1..], d - Moved(code[0], 0)))
  }

  lemma {:induction false} LevelAppend(a: seq<Instr>, b: seq<Instr>, d: int)
    requires Level(a, d) && Level(b, d - MovedAll(a, 0))
    ensures Level(a + b, d)
  {
    if a == [] {
      assert a + b == b;
    } else {
      assert (a + b)[1..] == a[1..] + b;
      MovedFrom(a[1..], Moved(a[0], 0));
      LevelAppend(a[1..], b, d - Moved(a[0], 0));
    }
  }

  lemma {:induction false} MovedFrom(code: seq<Instr>, rsp: int)
    ensures MovedAll(code, rsp) == MovedAll(code, 0) + rsp
  {
    if code != [] {
      MovedFrom(code[1..], Moved(code[0], rsp));
      MovedFrom(code[1..], Moved(code[0], 0));
    }
  }

  lemma {:induction false} MovedAppend(a: seq<Instr>, b: seq<Instr>, rsp: int)
    ensures MovedAll(a + b, rsp) == MovedAll(b, MovedAll(a, rsp))
  {
    if a == [] {
      assert a + b == b;
    } else {
      assert (a + b)[1..] == a[1..] + b;
      MovedAppend(a[1..], b, Moved(a[0], rsp));
    }
  }

  lemma {:induction false} LevelPushes(n: nat, d: int)
    requires n <= 15 && d >= 0
    ensures Level(PushDown(n), d) && MovedAll(PushDown(n), 0) == -8 * n
  {
    if n > 0 {
      assert PushDown(n)[1..] == PushDown(n - 1);
      LevelPushes(n - 1, d + 8);
      MovedFrom(PushDown(n - 1), -8);
    }
  }

  lemma {:induction false} LevelPops(k: nat, d: int)
    requires k <= 15 && d >= 8 * (15 - k)
    ensures Level(PopUp(k), d) && MovedAll(PopUp(k), 0) == 8 * (15 - k)
    decreases 15 - k
  {
    if k < 15 {
      assert PopUp(k)[1..] == PopUp(k + 1);
      LevelPops(k + 1, d - 8);
      MovedFrom(PopUp(k + 1), 8);
    }
  }

  lemma LevelOne(i: Instr, d: int)
    requires d >= 0 && d - Moved(i, 0) >= 0
    ensures Level([i], d) && MovedAll([i], 0) == Moved(i, 0)
  {
    assert [i][1..] == [];
  }

  /** Two pieces of code that stay level do so one after the other. */
  lemma LevelBoth(a: seq<Instr>, b: seq<Instr>, d: int, moved: int)
    requires Level(a, d) && MovedAll(a, 0) == moved && Level(b, d - moved)
    ensures Level(a + b, d) && MovedAll(a + b, 0) == moved + MovedAll(b, 0)
  {
    LevelAppend(a, b, d);
    MovedAppend(a, b, 0);
    MovedFrom(b, moved);
  }

  lemma LevelSave(d: int)
    requires d >= 0
    ensures Level(SAVE_ISR_REGISTERS, d) && MovedAll(SAVE_ISR_REGISTERS, 0) == -120
  {
    hide Level, MovedAll, PushDown;
    SaveIs();
    LevelOne(Push(RBP), d);
    LevelOne(MovRsp(RBP), d + 8);
    LevelBoth([Push(RBP)], [MovRsp(RBP)], d, -8);
    assert [Push(RBP)] + [MovRsp(RBP)] == [Push(RBP), MovRsp(RBP)];
    LevelPushes(14, d + 8);
    LevelBoth([Push(RBP), MovRsp(RBP)], PushDown(14), d, -8);
    LevelOne(Cld, d + 120);
    LevelBoth([Push(RBP), MovRsp(RBP)] + PushDown(14), [Cld], d, -120);
  }

  lemma LevelTail(argument: Reg, d: int)
    requires d >= 0
    ensures var tail := [MovRsp(argument), MovImm(RAX, 0)]; Level(tail, d) && MovedAll(tail, 0) == 0
  {
    hide Level, MovedAll;
    LevelOne(MovRsp(argument), d);
    LevelOne(MovImm(RAX, 0), d);
    LevelBoth([MovRsp(argument)], [MovImm(RAX, 0)], d, 0);
    assert [MovRsp(argument)] + [MovImm(RAX, 0)] == [MovRsp(argument), MovImm(RAX, 0)];
  }

  lemma LevelBefore(num: nat, argument: Reg, d: int)
    requires d >= 0
    ensures Level(BeforeCall(num, argument), d) && MovedAll(BeforeCall(num, argument), 0) == -128
  {
    hide Level, MovedAll, SAVE_ISR_REGISTERS;
    var tail := [MovRsp(argument), MovImm(RAX, 0)];
    LevelTail(argument, d + 128);
    if ExpectsErrorCode(num) {
      LevelOne(PushImm(num), d);
      LevelSave(d + 8);
      LevelBoth([PushImm(num)], SAVE_ISR_REGISTERS, d, -8);
      LevelBoth([PushImm(num)] + SAVE_ISR_REGISTERS, tail, d, -128);
    } else {
      LevelSave(d);
      LevelOne(PushImm(num), d + 120);
      LevelBoth(SAVE_ISR_REGISTERS, [PushImm(num)], d, -120);
      LevelBoth(SAVE_ISR_REGISTERS + [PushImm(num)], tail, d, -128);
      assert BeforeCall(num, argument) == SAVE_ISR_REGISTERS + [PushImm(num)] + tail;
    }
  }

  lemma LevelAfter(num: nat, d: int)
    requires d >= if ExpectsErrorCode(num) then 136 else 128
    ensures Level(AfterCall(num), d)
  {
    hide Level, MovedAll, PopUp;
    RestoreIs();
    if ExpectsErrorCode(num) {
      LevelPops(0, d);
      LevelOne(AddRsp(16), d - 120);
      LevelBoth(RESTORE_ISR_REGISTERS, [AddRsp(16)], d, 120);
    } else {
      LevelOne(AddRsp(8), d);
      LevelPops(0, d - 8);
      LevelBoth([AddRsp(8)], RESTORE_ISR_REGISTERS, d, 8);
    }
  }

  /** A pusher never goes above the words iretq takes. */
  lemma LevelPusher(num: nat, argument: Reg)
    ensures Level(Pusher(num, argument), if ExpectsErrorCode(num) then 8 else 0)
    ensures Level(BeforeCall(num, argument), if ExpectsErrorCode(num) then 8 else 0)
  {
    hide Level, MovedAll, BeforeCall, AfterCall;
    var d := if ExpectsErrorCode(num) then 8 else 0;
    LevelBefore(num, argument, d);
    LevelOne(Call, d + 128);
    LevelAfter(num, d + 128);
    LevelBoth(BeforeCall(num, argument), [Call], d, -128);
    LevelBoth(BeforeCall(num, argument) + [Call], AfterCall(num), d, -128);
  }

  lemma AlignedPusher(num: nat, argument: Reg)
    ensures Aligned(Pusher(num, argument)) && Aligned(BeforeCall(num, argument))
  {
    hide SAVE_ISR_REGISTERS, RESTORE_ISR_REGISTERS;
    NoAdds();
    forall i | i in Pusher(num, argument) && i.AddRsp?
      ensures i.n % 8 == 0
    {
      assert i in SAVE_ISR_REGISTERS || i in RESTORE_ISR_REGISTERS || i == AddRsp(8) || i == AddRsp(16);
    }
    assert forall i | i in BeforeCall(num, argument) :: i in Pusher(num, argument);
  }

  lemma NoAdds()
    ensures forall i | i in SAVE_ISR_REGISTERS || i in RESTORE_ISR_REGISTERS :: !i.AddRsp? && !i.Call?
  {}

  // ------------------------------------------------------- places and dead words

  /** The interrupt stacks: aligned, and 4 KiB each without overlap. */
  predicate Sound(tss: Tss) {
    && (forall k | 0 <= k < 4 :: tss[k] % 16 == 0)
    && (forall j, k | 0 <= j < k < 4 :: tss[j] + STACK_SIZE <= tss[k] || tss[k] + STACK_SIZE <= tss[j])
  }

  predicate InStack(tss: Tss, k: nat, x: int) {
    Top(tss, k) - 4096 <= x < Top(tss, k)
  }

  /** Where code runs: on the stack floor .. top, with some interrupt stacks free. */
  datatype Place = Place(floor: int, top: int, free: set<nat>)

  ghost predicate Placed(tss: Tss, p: Place) {
    && Sound(tss)
    && (forall k | k in p.free :: 1 <= k <= 4)
    && (forall k | k in p.free :: Top(tss, k) <= p.floor || p.top <= Top(tss, k) - STACK_SIZE)
  }

  /** Words that may change: those below the stack pointer, and the free stacks. */
  ghost predicate Dead(tss: Tss, p: Place, rsp: int, x: int) {
    p.floor <= x < rsp || exists k | k in p.free :: InStack(tss, k, x)
  }

  ghost predicate SameLive(tss: Tss, p: Place, rsp: int, m: map<int, Quad>, m': map<int, Quad>) {
    forall x | x % 8 == 0 && !Dead(tss, p, rsp, x) :: Load(m', x) == Load(m, x)
  }

  /** Equal but for dead words. */
  ghost predicate Same(tss: Tss, p: Place, rsp: int, a: Cpu, b: Cpu) {
    a.(mem := map[]) == b.(mem := map[]) && SameLive(tss, p, rsp, b.mem, a.mem)
  }

  /** `c'` is the interrupted context `c`: the same registers, stack pointer, rip,
      flags and segments, and the same memory but for the words below its (aligned)
      stack pointer and on free interrupt stacks. */
  ghost predicate Unharmed(tss: Tss, p: Place, c: Cpu, c': Cpu) {
    Same(tss, p, c.rsp - c.rsp % 16, c', c)
  }

  /** The place where the pusher of `num` runs. */
  function Inner(tss: Tss, num: nat, p: Place): Place {
    if IstOf(num) == 0 then p
    else Place(Top(tss, IstOf(num)) - STACK_SIZE, Top(tss, IstOf(num)), FreeAfter(num, p.free))
  }

  lemma IstBound(num: nat)
    ensures 0 <= IstOf(num) <= 4
  {}

  lemma StacksApart(tss: Tss, j: nat, k: nat)
    requires Sound(tss) && 1 <= j <= 4 && 1 <= k <= 4 && j != k
    ensures Top(tss, j) <= Top(tss, k) - STACK_SIZE || Top(tss, k) <= Top(tss, j) - STACK_SIZE
  {}

  lemma InnerPlaced(tss: Tss, num: nat, p: Place)
    requires Placed(tss, p)
    ensures Placed(tss, Inner(tss, num, p))
  {
    hide Top, Sound;
    IstBound(num);
    if IstOf(num) != 0 {
      forall k | k in p.free && k != IstOf(num)
        ensures Top(tss, k) <= Top(tss, IstOf(num)) - STACK_SIZE || Top(tss, IstOf(num)) <= Top(tss, k) - STACK_SIZE
      {
        StacksApart(tss, k, IstOf(num));
      }
    }
  }

  lemma LiveAt(tss: Tss, p: Place, rsp: int, x: int)
    requires Placed(tss, p) && p.floor <= x < p.top && rsp <= x
    ensures !Dead(tss, p, rsp, x)
  {
    hide Top, Sound;
  }

  lemma SameTrans(tss: Tss, p: Place, low: int, rsp: int, a': Cpu, a: Cpu, b: Cpu)
    requires Same(tss, p, low, a', a) && Same(tss, p, rsp, a, b) && low <= rsp
    ensures Same(tss, p, rsp, a', b)
  {
    hide InStack, Load;
  }

  // ------------------------------------------------------------ transparency

  /** How far below the words iretq takes a pusher starts. */
  function Depth(num: nat): int { if ExpectsErrorCode(num) then 8 else 0 }

  /** Taking an interrupt, with any interrupts nested in its pusher and in its
      handler to any depth, brings the interrupted context back, provided that no
      vector arrives whose interrupt stack is in use and that no stack overflows. */
  lemma {:induction false} Transparent(tss: Tss, p: Place, i: Irq, argument: Reg, c: Cpu)
    requires argument in {RDI, RCX} && Placed(tss, p) && c.rsp <= p.top
    requires Fits(tss, i, argument, p.floor, c.rsp) && Free(i, argument, p.free)
    ensures Unharmed(tss, p, c, Take(tss, i, argument, c))
    decreases IrqSize(i), 0
  {
    hide Run, RunFits, RunFree, Pusher, Slice, Dead, Level, Aligned, Load, InStack, Placed;
    var q := Inner(tss, i.num, p);
    var e := Entered(tss, i, c);
    EntryFrame(tss, i, c);
    InnerPlaced(tss, i.num, p);
    InnerBounds(tss, p, i, argument, c.rsp);
    LevelPusher(i.num, argument);
    AlignedPusher(i.num, argument);
    SameSelf(tss, q, e.rsp, e);
    Simulates(tss, q, Pusher(i.num, argument), i.steps, i.handler, argument, e, e, e.rsp + Depth(i.num));
    StripFits(tss, Pusher(i.num, argument), i.steps, i.handler, argument, q.floor, e.rsp);
    QuietTransparent(tss, i.num, Strip(i.handler), argument, q.floor, e);
    Returned(tss, p, i, c, e, Run(tss, Pusher(i.num, argument), i.steps, i.handler, argument, e),
             Run(tss, Pusher(i.num, argument), Quiet, Strip(i.handler), argument, e));
  }

  lemma SameSelf(tss: Tss, p: Place, rsp: int, c: Cpu)
    ensures Same(tss, p, rsp, c, c)
  {}

  lemma InnerBounds(tss: Tss, p: Place, i: Irq, argument: Reg, rsp: int)
    requires Placed(tss, p) && rsp <= p.top && Fits(tss, i, argument, p.floor, rsp)
    ensures var q := Inner(tss, i.num, p);
            && q.floor == Bottom(tss, i.num, p.floor) && q.free == FreeAfter(i.num, p.free)
            && q.floor <= EntryRsp(tss, i, rsp) && EntryRsp(tss, i, rsp) + Depth(i.num) <= q.top - 40
  {
    hide RunFits, Pusher, Top, Sound;
    BaseIs(tss, p, i.num, rsp);
  }

  /** From the state before iretq to the interrupted context: `r` with and `q` without
      nested interrupts. */
  lemma Returned(tss: Tss, p: Place, i: Irq, c: Cpu, e: Cpu, r: Cpu, s: Cpu)
    requires Placed(tss, p) && c.rsp <= p.top && (IstOf(i.num) == 0 || IstOf(i.num) in p.free) && Agrees(i)
    requires e == Entered(tss, i, c) && Inner(tss, i.num, p).floor <= e.rsp
    requires r.rsp == e.rsp + Depth(i.num) && s.regs == e.regs
    requires Same(tss, Inner(tss, i.num, p), r.rsp, r, s) && Keeps(Inner(tss, i.num, p).floor, e.rsp, e, s)
    ensures Unharmed(tss, p, c, Iretq(r))
  {
    hide Load, InStack, Top, Sound;
    var q, base := Inner(tss, i.num, p), EntryBase(tss, IstOf(i.num), c.rsp);
    EntryFrame(tss, i, c);
    IstBound(i.num);
    InnerPlaced(tss, i.num, p);
    BaseIs(tss, p, i.num, c.rsp);
    forall x | x % 8 == 0 && r.rsp <= x < base
      ensures Load(r.mem, x) == Load(e.mem, x)
    {
      LiveAt(tss, q, r.rsp, x);
    }
    forall x | x % 8 == 0 && !Dead(tss, p, c.rsp - c.rsp % 16, x)
      ensures Load(r.mem, x) == Load(c.mem, x)
    {
      DeadInside(tss, p, i.num, c.rsp, r.rsp, x);
      assert !(e.rsp <= x < base);
    }
  }

  lemma BaseIs(tss: Tss, p: Place, num: nat, rsp: int)
    requires Placed(tss, p) && rsp <= p.top
    ensures EntryBase(tss, IstOf(num), rsp) % 8 == 0 && EntryBase(tss, IstOf(num), rsp) <= Inner(tss, num, p).top
    ensures IstOf(num) == 0 ==> EntryBase(tss, IstOf(num), rsp) == rsp - rsp % 16
    ensures IstOf(num) != 0 ==> EntryBase(tss, IstOf(num), rsp) == Top(tss, IstOf(num))
  {
    IstBound(num);
    AlignDown(rsp);
    AlignDown(Top(tss, IstOf(num)));
  }

  /** What is dead for a pusher, or written at its entry, is dead for the context
      it interrupts. */
  lemma DeadInside(tss: Tss, p: Place, num: nat, rsp: int, low: int, x: int)
    requires Placed(tss, p) && (IstOf(num) == 0 || IstOf(num) in p.free)
    requires rsp <= p.top && low <= EntryBase(tss, IstOf(num), rsp) && !Dead(tss, p, rsp - rsp % 16, x)
    ensures !Dead(tss, Inner(tss, num, p), low, x)
    ensures !(Inner(tss, num, p).floor <= x < EntryBase(tss, IstOf(num), rsp))
  {
    hide Top, Sound;
    BaseIs(tss, p, num, rsp);
    if IstOf(num) != 0 {
      assert !InStack(tss, IstOf(num), x);
    }
  }

  /** Interrupts do not change what code and handler do. */
  lemma {:induction false} Simulates(tss: Tss, p: Place, code: seq<Instr>, steps: Steps, h: Handler, argument: Reg, a: Cpu, b: Cpu, lim: int)
    requires argument in {RDI, RCX} && Placed(tss, p) && lim <= p.top
    requires a.rsp % 8 == 0 && Aligned(code) && Level(code, lim - a.rsp) && p.floor <= a.rsp
    requires RunFits(tss, code, steps, h, argument, p.floor, a.rsp) && RunFree(code, steps, h, argument, p.free)
    requires Same(tss, p, a.rsp, a, b)
    ensures var r := Run(tss, code, steps, h, argument, a);
            && r.rsp % 8 == 0 && r.rsp == MovedAll(code, a.rsp)
            && Same(tss, p, r.rsp, r, Run(tss, code, Quiet, Strip(h), argument, b))
    decreases StepsSize(steps) + HandlerSize(h), |code| + 3
  {
    hide Exec, Take, Invoke, Fits, Free, HandlerFits, HandlerFree, Placed, Same, Unharmed;
    if steps.Arrives? {
      var a' := Take(tss, steps.irq, argument, a);
      Transparent(tss, p, steps.irq, argument, a);
      BackInCode(tss, p, a, a', b);
      Simulates(tss, p, code, steps.rest, h, argument, a', b, lim);
    } else if code != [] {
      assert code[0] in code && Aligned(code[1..]);
      var a', b' := Step(tss, code[0], h, argument, a), Step(tss, code[0], Strip(h), argument, b);
      MovedBy(code[0], a.rsp);
      if code[0].Call? {
        InvokeSame(tss, p, h, argument, a, b);
      } else {
        ExecSame(tss, p, code[0], a, b, lim);
      }
      Simulates(tss, p, code[1..], Later(steps), h, argument, a', b', lim);
    }
  }

  lemma BackInCode(tss: Tss, p: Place, a: Cpu, a': Cpu, b: Cpu)
    requires Same(tss, p, a.rsp, a, b) && Unharmed(tss, p, a, a')
    ensures a'.rsp == a.rsp && Same(tss, p, a.rsp, a', b)
  {
    hide Load, Dead;
    SameTrans(tss, p, a.rsp - a.rsp % 16, a.rsp, a', a, b);
  }

  lemma MovedBy(i: Instr, rsp: int)
    ensures Moved(i, rsp) == rsp + Moved(i, 0) && (i.Call? ==> Moved(i, rsp) == rsp)
  {}

  lemma ExecSame(tss: Tss, p: Place, i: Instr, a: Cpu, b: Cpu, lim: int)
    requires Placed(tss, p) && lim <= p.top && p.floor <= a.rsp && Moved(i, a.rsp) <= lim
    requires Same(tss, p, a.rsp, a, b) && a.rsp % 8 == 0 && (i.AddRsp? ==> i.n % 8 == 0) && !i.Call?
    ensures Same(tss, p, Exec(i, a).rsp, Exec(i, a), Exec(i, b))
    ensures Exec(i, a).rsp % 8 == 0 && Exec(i, a).rsp == Moved(i, a.rsp)
  {
    hide InStack, Placed;
    match i
    case Push(r) => StoreBoth(tss, p, a.rsp, a.rsp - 8, a, b, a.regs[r]);
    case PushImm(w) => StoreBoth(tss, p, a.rsp, a.rsp - 8, a, b, w);
    case Pop(r) => LiveAt(tss, p, a.rsp, a.rsp);
    case _ =>
  }

  /** The same store on both sides, of a word that may become live. */
  lemma StoreBoth(tss: Tss, p: Place, rsp: int, x: int, a: Cpu, b: Cpu, w: Quad)
    requires SameLive(tss, p, rsp, b.mem, a.mem) && rsp % 8 == 0
    ensures SameLive(tss, p, if x == rsp - 8 then x else rsp, b.mem[x := w], a.mem[x := w])
  {
    hide InStack;
    forall y | y % 8 == 0 && !Dead(tss, p, if x == rsp - 8 then x else rsp, y)
      ensures Load(a.mem[x := w], y) == Load(b.mem[x := w], y)
    {
      if y != x {
        assert !Dead(tss, p, rsp, y);
      }
    }
  }

  lemma {:induction false} InvokeSame(tss: Tss, p: Place, h: Handler, argument: Reg, a: Cpu, b: Cpu)
    requires argument in {RDI, RCX} && Placed(tss, p) && p.floor <= a.rsp - 8 && a.rsp <= p.top
    requires Same(tss, p, a.rsp, a, b) && a.rsp % 8 == 0
    requires HandlerFits(tss, h, argument, p.floor, a.rsp, a.rsp - 8) && HandlerFree(h, argument, p.free)
    ensures var r := Invoke(tss, h, argument, a);
            r.rsp == a.rsp && Same(tss, p, r.rsp, r, Invoke(tss, Strip(h), argument, b))
    decreases HandlerSize(h), 1
  {
    hide Handle, Load, HandlerFits, HandlerFree, Placed, Dead;
    PushSame(tss, p, a, b);
    HandleSame(tss, p, h, argument, a.rsp, PushWord(a, a.rip + 1), PushWord(b, b.rip + 1));
  }

  lemma PushSame(tss: Tss, p: Place, a: Cpu, b: Cpu)
    requires Same(tss, p, a.rsp, a, b) && a.rsp % 8 == 0
    ensures Same(tss, p, a.rsp - 8, PushWord(a, a.rip + 1), PushWord(b, b.rip + 1))
  {
    hide Dead;
    StoreBoth(tss, p, a.rsp, a.rsp - 8, a, b, a.rip + 1);
  }

  lemma {:induction false} HandleSame(tss: Tss, p: Place, h: Handler, argument: Reg, frame: int, a: Cpu, b: Cpu)
    requires argument in {RDI, RCX} && Placed(tss, p) && p.floor <= frame - 8 && frame <= p.top
    requires p.floor <= a.rsp <= frame - 8 && frame % 8 == 0 && Same(tss, p, frame - 8, a, b)
    requires HandlerFits(tss, h, argument, p.floor, frame, a.rsp) && HandlerFree(h, argument, p.free)
    ensures var r := Handle(tss, h, argument, frame, a);
            r.rsp == frame && Same(tss, p, frame, r, Handle(tss, Strip(h), argument, frame, b))
    decreases HandlerSize(h), 0
  {
    hide Take, Load, Unharmed, Fits, Free, Placed, Dead;
    match h
    case Return =>
      ReturnSame(tss, p, argument, frame, a, b);
    case Interrupted(i, rest) =>
      Transparent(tss, p, i, argument, a);
      BackInHandler(tss, p, frame, a, Take(tss, i, argument, a), b);
      HandleSame(tss, p, rest, argument, frame, Take(tss, i, argument, a), b);
    case _ =>
      ActSame(tss, p, h, frame, a, b);
      HandleSame(tss, p, h.rest, argument, frame, Act(h, frame, a), Act(Strip(h), frame, b));
  }

  lemma ReturnSame(tss: Tss, p: Place, argument: Reg, frame: int, a: Cpu, b: Cpu)
    requires Placed(tss, p) && p.floor <= frame - 8 && frame <= p.top && frame % 8 == 0 && Same(tss, p, frame - 8, a, b)
    ensures Same(tss, p, frame, Handle(tss, Return, argument, frame, a), Handle(tss, Return, argument, frame, b))
  {
    hide Load, InStack, Placed;
    LiveAt(tss, p, frame - 8, frame - 8);
  }

  lemma ActSame(tss: Tss, p: Place, h: Handler, frame: int, a: Cpu, b: Cpu)
    requires !h.Return? && !h.Interrupted? && frame % 8 == 0 && Same(tss, p, frame - 8, a, b)
    ensures !Strip(h).Return? && !Strip(h).Interrupted? && Strip(h).rest == Strip(h.rest)
    ensures Same(tss, p, frame - 8, Act(h, frame, a), Act(Strip(h), frame, b))
  {
    hide Dead, Load;
    if h.Store? {
      StoreBoth(tss, p, frame - 8, frame - 16 - h.below, a, b, h.w);
      DeadGrows(tss, p, frame - 16, frame - 8);
    }
  }

  lemma DeadGrows(tss: Tss, p: Place, low: int, rsp: int)
    requires low <= rsp
    ensures forall x | !Dead(tss, p, rsp, x) :: !Dead(tss, p, low, x)
  {
    hide InStack;
  }

  lemma BackInHandler(tss: Tss, p: Place, frame: int, a: Cpu, a': Cpu, b: Cpu)
    requires a.rsp <= frame - 8 && Same(tss, p, frame - 8, a, b) && Unharmed(tss, p, a, a')
    ensures a'.rsp == a.rsp && Same(tss, p, frame - 8, a', b)
  {
    hide Load, Dead;
    SameTrans(tss, p, a.rsp - a.rsp % 16, frame - 8, a', a, b);
  }

  // ------------------------------------------------------------- the frame

  /** Up to its call a pusher does what fits and keeps to free stacks if all of it
      does. */
  lemma {:induction false} Prefix(tss: Tss, a: seq<Instr>, b: seq<Instr>, steps: Steps, h: Handler, argument: Reg,
                                  floor: int, rsp: int, free: set<nat>)
    requires NoCall(a) && RunFits(tss, a + b, steps, h, argument, floor, rsp) && RunFree(a + b, steps, h, argument, free)
    ensures RunFits(tss, a, steps, Return, argument, floor, rsp) && RunFree(a, steps, Return, argument, free)
    decreases StepsSize(steps), |a|
  {
    if steps.Arrives? {
      Prefix(tss, a, b, steps.rest, h, argument, floor, rsp, free);
    } else if a != [] {
      assert (a + b)[1..] == a[1..] + b && (a + b)[0] == a[0] && a[0] in a;
      assert forall i | i in a[1..] :: i in a;
      Prefix(tss, a[1..], b, Later(steps), h, argument, floor, Moved(a[0], rsp), free);
    }
  }

  /** Whatever interrupts the pusher on its way, its handler is called with a
      pointer to a frame that shows the interrupted context, the vector number
      and the error code; with the direction flag clear and a frame pointer that
      leads to the interrupted one; and with the stack aligned to 16 bytes only if
      there is an error code. */
  lemma HandlerSeesFrame(tss: Tss, p: Place, i: Irq, argument: Reg, c: Cpu)
    requires argument in {RDI, RCX} && Placed(tss, p) && c.rsp <= p.top
    requires Fits(tss, i, argument, p.floor, c.rsp) && Free(i, argument, p.free)
    ensures var s := Run(tss, BeforeCall(i.num, argument), i.steps, Return, argument, Entered(tss, i, c));
            && s.regs[argument] == s.rsp
            && FrameAt(i.num, s.mem, s.rsp) == FrameOf(c, i.num, i.error)
            && Load(s.mem, s.regs[RBP]) == c.regs[RBP] && s.regs[RAX] == 0
            && s.rflags == ClearDirection(i.flags)
            && s.rsp % 16 == if i.error.Some? then 0 else 8
  {
    hide Exec, Run, RunFits, RunFree, Level, Aligned, BeforeCall, AfterCall, Load, Placed, InStack, MovedAll, Slice;
    var before := BeforeCall(i.num, argument);
    var q, e := Inner(tss, i.num, p), Entered(tss, i, c);
    EntryFrame(tss, i, c);
    InnerPlaced(tss, i.num, p);
    InnerBounds(tss, p, i, argument, c.rsp);
    NoCallAround(i.num, argument);
    LevelPusher(i.num, argument);
    AlignedPusher(i.num, argument);
    assert Pusher(i.num, argument) == before + ([Call] + AfterCall(i.num));
    Prefix(tss, before, [Call] + AfterCall(i.num), i.steps, i.handler, argument, q.floor, e.rsp, q.free);
    EndFits(tss, before, i.steps, Return, argument, q.floor, e.rsp);
    SameSelf(tss, q, e.rsp, e);
    Simulates(tss, q, before, i.steps, Return, argument, e, e, e.rsp + Depth(i.num));
    QuietBefore(tss, i.num, argument, e);
    BeforeCallState(i.num, argument, e);
    FrameSeen(tss, q, i, c, e, ExecAll(before, e), Run(tss, before, i.steps, Return, argument, e));
    CallAligned(tss, i, c.rsp);
    SavedFramePointer(i.num, Run(tss, before, i.steps, Return, argument, e));
  }

  lemma CallAligned(tss: Tss, i: Irq, rsp: int)
    ensures (EntryRsp(tss, i, rsp) - 128) % 16 == if i.error.Some? then 0 else 8
  {
    var base := EntryBase(tss, IstOf(i.num), rsp);
    BaseAligned16(tss, IstOf(i.num), rsp);
    assert base == 16 * (base / 16);
  }

  lemma BaseAligned16(tss: Tss, ist: nat, rsp: int)
    ensures EntryBase(tss, ist, rsp) % 16 == 0
  {
    Down16(rsp);
    Down16(Top(tss, ist));
  }

  lemma Down16(a: int)
    ensures (a - a % 16) % 16 == 0
  {
    assert a - a % 16 == 16 * (a / 16);
  }

  /** The frame's rbp is where the frame pointer points. */
  lemma SavedFramePointer(num: nat, s: Cpu)
    requires s.regs[RBP] == s.rsp + (if ExpectsErrorCode(num) then 112 else 120)
    ensures Load(s.mem, s.regs[RBP]) == FrameAt(num, s.mem, s.rsp).regs[RBP]
  {
    hide Load;
  }

  lemma {:induction false} EndFits(tss: Tss, code: seq<Instr>, steps: Steps, h: Handler, argument: Reg, floor: int, rsp: int)
    requires floor <= rsp && RunFits(tss, code, steps, h, argument, floor, rsp)
    ensures floor <= MovedAll(code, rsp)
    decreases StepsSize(steps), |code|
  {
    if steps.Arrives? {
      EndFits(tss, code, steps.rest, h, argument, floor, rsp);
    } else if code != [] {
      EndFits(tss, code[1..], Later(steps), h, argument, floor, Moved(code[0], rsp));
    }
  }

  lemma QuietBefore(tss: Tss, num: nat, argument: Reg, e: Cpu)
    ensures Run(tss, BeforeCall(num, argument), Quiet, Return, argument, e) == ExecAll(BeforeCall(num, argument), e)
  {
    hide BeforeCall, ExecAll;
    var before := BeforeCall(num, argument);
    NoCallAround(num, argument);
    assert before + [] == before;
    QuietRun(tss, before, [], Return, argument, e);
  }

  lemma FrameSeen(tss: Tss, q: Place, i: Irq, c: Cpu, e: Cpu, s: Cpu, r: Cpu)
    requires Placed(tss, q) && Agrees(i) && e == Entered(tss, i, c) && e.rsp + Depth(i.num) + 40 <= q.top
    requires s.rsp == e.rsp - 128 && Keeps(s.rsp, e.rsp, e, s) && s.rsp >= q.floor
    requires if ExpectsErrorCode(i.num) then Slice(s.mem, s.rsp, 15) == e.regs && Load(s.mem, s.rsp + 120) == i.num
             else Slice(s.mem, s.rsp + 8, 15) == e.regs && Load(s.mem, s.rsp) == i.num
    requires Same(tss, q, s.rsp, r, s)
    ensures FrameAt(i.num, r.mem, r.rsp) == FrameOf(c, i.num, i.error)
  {
    hide Slice, Load, InStack, Placed, Entered, Dead;
    EntryFrame(tss, i, c);
    forall x | x % 8 == 0 && s.rsp <= x < q.top
      ensures Load(r.mem, x) == Load(s.mem, x)
    {
      LiveAt(tss, q, s.rsp, x);
    }
    SliceKept(s.mem, r.mem, s.rsp, 15);
    SliceKept(s.mem, r.mem, s.rsp + 8, 15);
  }

  // ------------------------------------------------- when the context comes back

  /** Every interrupt taken in the course of this one, and this one itself, brings
      back the context it interrupts. */
  ghost predicate Faithful(tss: Tss, p: Place, i: Irq, argument: Reg, c: Cpu)
    decreases IrqSize(i), 0
  {
    && Unharmed(tss, p, c, Take(tss, i, argument, c))
    && RunFaithful(tss, Inner(tss, i.num, p), Pusher(i.num, argument), i.steps, i.handler, argument, Entered(tss, i, c))
  }

  ghost predicate RunFaithful(tss: Tss, p: Place, code: seq<Instr>, steps: Steps, h: Handler, argument: Reg, c: Cpu)
    decreases StepsSize(steps) + HandlerSize(h), |code| + 3
  {
    if steps.Arrives? then
      && Faithful(tss, p, steps.irq, argument, c)
      && RunFaithful(tss, p, code, steps.rest, h, argument, Take(tss, steps.irq, argument, c))
    else if code == [] then true
    else
      && (code[0].Call? ==> HandlerFaithful(tss, p, h, argument, c.rsp, PushWord(c, c.rip + 1)))
      && RunFaithful(tss, p, code[1..], Later(steps), h, argument, Step(tss, code[0], h, argument, c))
  }

  ghost predicate HandlerFaithful(tss: Tss, p: Place, h: Handler, argument: Reg, frame: int, c: Cpu)
    decreases HandlerSize(h), 0
  {
    match h
    case Return => true
    case Interrupted(i, rest) =>
      && Faithful(tss, p, i, argument, c)
      && HandlerFaithful(tss, p, rest, argument, frame, Take(tss, i, argument, c))
    case _ => HandlerFaithful(tss, p, h.rest, argument, frame, Act(h, frame, c))
  }

  lemma {:induction false} FreeFaithful(tss: Tss, p: Place, i: Irq, argument: Reg, c: Cpu)
    requires argument in {RDI, RCX} && Placed(tss, p) && c.rsp <= p.top
    requires Fits(tss, i, argument, p.floor, c.rsp) && Free(i, argument, p.free)
    ensures Faithful(tss, p, i, argument, c)
    decreases IrqSize(i), 0
  {
    hide Run, RunFits, RunFree, RunFaithful, Pusher, Level, Aligned, Load, Placed, Unharmed, Take;
    Transparent(tss, p, i, argument, c);
    EntryFrame(tss, i, c);
    InnerPlaced(tss, i.num, p);
    InnerBounds(tss, p, i, argument, c.rsp);
    LevelPusher(i.num, argument);
    var e := Entered(tss, i, c);
    RunFreeFaithful(tss, Inner(tss, i.num, p), Pusher(i.num, argument), i.steps, i.handler, argument, e, e.rsp + Depth(i.num));
  }

  lemma {:induction false} RunFreeFaithful(tss: Tss, p: Place, code: seq<Instr>, steps: Steps, h: Handler, argument: Reg, c: Cpu, lim: int)
    requires argument in {RDI, RCX} && Placed(tss, p) && lim <= p.top && Level(code, lim - c.rsp)
    requires RunFits(tss, code, steps, h, argument, p.floor, c.rsp) && RunFree(code, steps, h, argument, p.free)
    ensures RunFaithful(tss, p, code, steps, h, argument, c)
    decreases StepsSize(steps) + HandlerSize(h), |code| + 3
  {
    hide Fits, Free, Faithful, HandlerFits, HandlerFree, HandlerFaithful, Placed, Dead, Load, Take, Handle;
    if steps.Arrives? {
      FreeFaithful(tss, p, steps.irq, argument, c);
      TakenRsp(tss, p, steps.irq, argument, c);
      RunFreeFaithful(tss, p, code, steps.rest, h, argument, Take(tss, steps.irq, argument, c), lim);
    } else if code != [] {
      if code[0].Call? {
        HandlerFreeFaithful(tss, p, h, argument, c.rsp, PushWord(c, c.rip + 1));
      }
      StepRsp(tss, code[0], h, argument, c);
      MovedBy(code[0], c.rsp);
      RunFreeFaithful(tss, p, code[1..], Later(steps), h, argument, Step(tss, code[0], h, argument, c), lim);
    }
  }

  lemma {:induction false} HandlerFreeFaithful(tss: Tss, p: Place, h: Handler, argument: Reg, frame: int, c: Cpu)
    requires argument in {RDI, RCX} && Placed(tss, p) && c.rsp <= frame - 8 && frame <= p.top
    requires HandlerFits(tss, h, argument, p.floor, frame, c.rsp) && HandlerFree(h, argument, p.free)
    ensures HandlerFaithful(tss, p, h, argument, frame, c)
    decreases HandlerSize(h), 0
  {
    hide Fits, Free, Faithful, Placed, Dead, Load, Take;
    match h
    case Return =>
    case Interrupted(i, rest) =>
      FreeFaithful(tss, p, i, argument, c);
      TakenRsp(tss, p, i, argument, c);
      HandlerFreeFaithful(tss, p, rest, argument, frame, Take(tss, i, argument, c));
    case _ => HandlerFreeFaithful(tss, p, h.rest, argument, frame, Act(h, frame, c));
  }

  lemma TakenRsp(tss: Tss, p: Place, i: Irq, argument: Reg, c: Cpu)
    requires Faithful(tss, p, i, argument, c)
    ensures Unharmed(tss, p, c, Take(tss, i, argument, c)) && Take(tss, i, argument, c).rsp == c.rsp
  {
    hide RunFaithful, Take, SameLive;
  }

  lemma StepRsp(tss: Tss, i: Instr, h: Handler, argument: Reg, c: Cpu)
    ensures Step(tss, i, h, argument, c).rsp == Moved(i, c.rsp)
  {
    if i.Call? {
      HandleRsp(tss, h, argument, c.rsp, PushWord(c, c.rip + 1));
    }
  }

  lemma {:induction false} HandleRsp(tss: Tss, h: Handler, argument: Reg, frame: int, c: Cpu)
    ensures Handle(tss, h, argument, frame, c).rsp == frame
    decreases h
  {
    hide Take, Load;
    match h
    case Return =>
    case Interrupted(i, rest) => HandleRsp(tss, rest, argument, frame, Take(tss, i, argument, c));
    case _ => HandleRsp(tss, h.rest, argument, frame, Act(h, frame, c));
  }

  // ---------------------------------------------- the word that saves a stack pointer

  /** The address of the word in which entry on an interrupt stack saves rsp. */
  function Slot(tss: Tss, k: nat): int { Top(tss, k) - 16 }

  /** The interrupt stacks in use were entered from stacks that are neither the
      current one nor free, and code bounded by `lim` does not write to the words
      that say so. */
  ghost predicate Guard(tss: Tss, p: Place, lim: int, c: Cpu) {
    forall k | 1 <= k <= 4 && k !in p.free ::
      var v := Load(c.mem, Slot(tss, k));
      && !(p.floor <= Slot(tss, k) < lim)
      && !(p.floor <= v < p.top)
      && forall m | m in p.free :: !InStack(tss, m, v)
  }

  /** `x` is a word no code bounded by `lim` writes to. */
  ghost predicate Spared(tss: Tss, p: Place, lim: int, x: int) {
    x % 8 == 0 && !(p.floor <= x < lim) && forall m | m in p.free :: !InStack(tss, m, x)
  }

  lemma SlotInStack(tss: Tss, k: nat)
    requires Sound(tss) && 1 <= k <= 4
    ensures Slot(tss, k) % 8 == 0 && InStack(tss, k, Slot(tss, k))
  {
    assert tss[k - 1] % 16 == 0;
  }

  lemma SlotSpared(tss: Tss, p: Place, lim: int, c: Cpu, k: nat)
    requires Placed(tss, p) && Guard(tss, p, lim, c) && 1 <= k <= 4 && k !in p.free
    ensures Spared(tss, p, lim, Slot(tss, k))
  {
    hide Top, Sound, Slot, Load;
    SlotInStack(tss, k);
    forall m | m in p.free
      ensures !InStack(tss, m, Slot(tss, k))
    {
      StacksApart(tss, m, k);
    }
  }

  lemma UnharmedSpares(tss: Tss, p: Place, lim: int, c: Cpu, c': Cpu, x: int)
    requires Unharmed(tss, p, c, c') && Spared(tss, p, lim, x) && c.rsp <= lim
    ensures Load(c'.mem, x) == Load(c.mem, x)
  {
    hide Load, InStack;
    assert !Dead(tss, p, c.rsp - c.rsp % 16, x);
  }

  lemma ExecSpares(tss: Tss, p: Place, i: Instr, lim: int, c: Cpu, x: int)
    requires Spared(tss, p, lim, x) && c.rsp <= lim && p.floor <= Moved(i, c.rsp) && !i.Call?
    ensures Load(Exec(i, c).mem, x) == Load(c.mem, x)
  {
    hide InStack;
  }

  lemma {:induction false} HandleSpares(tss: Tss, p: Place, h: Handler, argument: Reg, frame: int, lim: int, c: Cpu, x: int)
    requires HandlerFaithful(tss, p, h, argument, frame, c) && HandlerFits(tss, h, argument, p.floor, frame, c.rsp)
    requires Spared(tss, p, lim, x) && c.rsp <= frame - 8 && frame <= lim
    ensures Load(Handle(tss, h, argument, frame, c).mem, x) == Load(c.mem, x)
    decreases h
  {
    hide Take, Faithful, Fits, Unharmed;
    match h
    case Return =>
    case Interrupted(i, rest) =>
      TakenRsp(tss, p, i, argument, c);
      UnharmedSpares(tss, p, lim, c, Take(tss, i, argument, c), x);
      HandleSpares(tss, p, rest, argument, frame, lim, Take(tss, i, argument, c), x);
    case _ => HandleSpares(tss, p, h.rest, argument, frame, lim, Act(h, frame, c), x);
  }

  lemma StepSpares(tss: Tss, p: Place, i: Instr, h: Handler, argument: Reg, lim: int, c: Cpu, x: int)
    requires Spared(tss, p, lim, x) && c.rsp <= lim && p.floor <= Moved(i, c.rsp)
    requires i.Call? ==> HandlerFaithful(tss, p, h, argument, c.rsp, PushWord(c, c.rip + 1))
    requires i.Call? ==> p.floor <= c.rsp - 8 && HandlerFits(tss, h, argument, p.floor, c.rsp, c.rsp - 8)
    ensures Load(Step(tss, i, h, argument, c).mem, x) == Load(c.mem, x)
  {
    hide Handle, HandlerFits, HandlerFaithful, InStack;
    if i.Call? {
      HandleSpares(tss, p, h, argument, c.rsp, lim, PushWord(c, c.rip + 1), x);
    } else {
      ExecSpares(tss, p, i, lim, c, x);
    }
  }

  /** As long as every nested interrupt is faithful, a spared word is not written. */
  lemma {:induction false} RunSpares(tss: Tss, p: Place, code: seq<Instr>, steps: Steps, h: Handler, argument: Reg, lim: int, c: Cpu, x: int)
    requires RunFaithful(tss, p, code, steps, h, argument, c) && RunFits(tss, code, steps, h, argument, p.floor, c.rsp)
    requires Level(code, lim - c.rsp) && Spared(tss, p, lim, x)
    ensures Load(Run(tss, code, steps, h, argument, c).mem, x) == Load(c.mem, x)
    decreases StepsSize(steps), |code|
  {
    hide Take, Faithful, Fits, Unharmed, Handle, HandlerFits, HandlerFaithful, Spared, Load;
    if steps.Arrives? {
      TakenRsp(tss, p, steps.irq, argument, c);
      UnharmedSpares(tss, p, lim, c, Take(tss, steps.irq, argument, c), x);
      RunSpares(tss, p, code, steps.rest, h, argument, lim, Take(tss, steps.irq, argument, c), x);
    } else if code != [] {
      StepSpares(tss, p, code[0], h, argument, lim, c, x);
      StepRsp(tss, code[0], h, argument, c);
      MovedBy(code[0], c.rsp);
      RunSpares(tss, p, code[1..], Later(steps), h, argument, lim, Step(tss, code[0], h, argument, c), x);
    }
  }

  /** Guarded words that are spared stay guarded. */
  lemma GuardKept(tss: Tss, p: Place, lim: int, c: Cpu, c': Cpu)
    requires Guard(tss, p, lim, c)
    requires forall k | 1 <= k <= 4 && k !in p.free :: Load(c'.mem, Slot(tss, k)) == Load(c.mem, Slot(tss, k))
    ensures Guard(tss, p, lim, c')
  {
    hide Load, InStack, Slot;
  }

  lemma TakeGuard(tss: Tss, p: Place, i: Irq, argument: Reg, lim: int, c: Cpu)
    requires Placed(tss, p) && Guard(tss, p, lim, c) && c.rsp <= lim && Faithful(tss, p, i, argument, c)
    ensures Guard(tss, p, lim, Take(tss, i, argument, c)) && Take(tss, i, argument, c).rsp == c.rsp
  {
    hide Take, Placed, Guard, Faithful, Unharmed, Spared, Load, Slot;
    TakenRsp(tss, p, i, argument, c);
    forall k | 1 <= k <= 4 && k !in p.free
      ensures Load(Take(tss, i, argument, c).mem, Slot(tss, k)) == Load(c.mem, Slot(tss, k))
    {
      SlotSpared(tss, p, lim, c, k);
      UnharmedSpares(tss, p, lim, c, Take(tss, i, argument, c), Slot(tss, k));
    }
    GuardKept(tss, p, lim, c, Take(tss, i, argument, c));
  }

  lemma StepGuard(tss: Tss, p: Place, i: Instr, h: Handler, argument: Reg, lim: int, c: Cpu)
    requires Placed(tss, p) && Guard(tss, p, lim, c) && c.rsp <= lim && p.floor <= Moved(i, c.rsp)
    requires i.Call? ==> HandlerFaithful(tss, p, h, argument, c.rsp, PushWord(c, c.rip + 1))
    requires i.Call? ==> p.floor <= c.rsp - 8 && HandlerFits(tss, h, argument, p.floor, c.rsp, c.rsp - 8)
    ensures Guard(tss, p, lim, Step(tss, i, h, argument, c))
  {
    hide Step, Placed, Guard, Spared, Load, Slot, HandlerFits, HandlerFaithful;
    forall k | 1 <= k <= 4 && k !in p.free
      ensures Load(Step(tss, i, h, argument, c).mem, Slot(tss, k)) == Load(c.mem, Slot(tss, k))
    {
      SlotSpared(tss, p, lim, c, k);
      StepSpares(tss, p, i, h, argument, lim, c, Slot(tss, k));
    }
    GuardKept(tss, p, lim, c, Step(tss, i, h, argument, c));
  }

  lemma ActGuard(tss: Tss, p: Place, h: Handler, argument: Reg, frame: int, lim: int, c: Cpu)
    requires Placed(tss, p) && Guard(tss, p, lim, c) && frame <= lim && !h.Return? && !h.Interrupted?
    requires HandlerFits(tss, h, argument, p.floor, frame, c.rsp)
    ensures Guard(tss, p, lim, Act(h, frame, c))
  {
    hide Placed, Guard, InStack, Slot;
    forall k | 1 <= k <= 4 && k !in p.free
      ensures Load(Act(h, frame, c).mem, Slot(tss, k)) == Load(c.mem, Slot(tss, k))
    {
      SlotSpared(tss, p, lim, c, k);
    }
    GuardKept(tss, p, lim, c, Act(h, frame, c));
  }

  // ------------------------------------------------------ faithful runs are free

  lemma {:induction false} FaithfulFree(tss: Tss, p: Place, i: Irq, argument: Reg, lim: int, c: Cpu)
    requires Placed(tss, p) && Guard(tss, p, lim, c) && p.floor <= c.rsp <= lim && c.rsp < p.top
    requires Fits(tss, i, argument, p.floor, c.rsp) && Faithful(tss, p, i, argument, c)
    ensures Free(i, argument, p.free)
    decreases IrqSize(i), 0
  {
    hide Run, RunFits, RunFree, RunFaithful, Pusher, Level, Load, Placed, Guard, Unharmed, Take;
    var q, e := Inner(tss, i.num, p), Entered(tss, i, c);
    EntryFrame(tss, i, c);
    InnerPlaced(tss, i.num, p);
    InnerBounds(tss, p, i, argument, c.rsp);
    LevelPusher(i.num, argument);
    BusyStack(tss, p, i, argument, lim, c);
    InnerGuard(tss, p, i, argument, lim, c);
    RunFaithfulFree(tss, q, Pusher(i.num, argument), i.steps, i.handler, argument, e.rsp + Depth(i.num), e);
  }

  /** After a faithful interrupt on a stack in use, the word that saves its rsp
      holds the interrupted rsp; so it did before. */
  lemma SlotOverwritten(tss: Tss, p: Place, i: Irq, argument: Reg, lim: int, c: Cpu)
    requires Placed(tss, p) && c.rsp <= lim && c.rsp <= p.top && IstOf(i.num) != 0
    requires Spared(tss, p, lim, Slot(tss, IstOf(i.num)))
    requires Fits(tss, i, argument, p.floor, c.rsp) && Faithful(tss, p, i, argument, c)
    ensures Load(c.mem, Slot(tss, IstOf(i.num))) == c.rsp
  {
    hide Run, RunFits, RunFaithful, Pusher, Level, Load, InStack, Unharmed, Top, Sound, Entered, Spared;
    var k, e := IstOf(i.num), Entered(tss, i, c);
    EntryFrame(tss, i, c);
    BaseIs(tss, p, i.num, c.rsp);
    InnerBounds(tss, p, i, argument, c.rsp);
    LevelPusher(i.num, argument);
    SlotAbove(tss, p, i.num, lim, e.rsp + Depth(i.num));
    RunSpares(tss, Inner(tss, i.num, p), Pusher(i.num, argument), i.steps, i.handler, argument,
              e.rsp + Depth(i.num), e, Slot(tss, k));
    UnharmedSpares(tss, p, lim, c, Take(tss, i, argument, c), Slot(tss, k));
  }

  lemma SlotAbove(tss: Tss, p: Place, num: nat, lim: int, lim': int)
    requires IstOf(num) != 0 && lim' <= Top(tss, IstOf(num)) - 40 && Spared(tss, p, lim, Slot(tss, IstOf(num)))
    ensures Spared(tss, Inner(tss, num, p), lim', Slot(tss, IstOf(num)))
  {
    hide Top;
  }

  /** So no faithful interrupt enters a stack in use. */
  lemma BusyStack(tss: Tss, p: Place, i: Irq, argument: Reg, lim: int, c: Cpu)
    requires Placed(tss, p) && Guard(tss, p, lim, c) && p.floor <= c.rsp <= lim && c.rsp < p.top
    requires Fits(tss, i, argument, p.floor, c.rsp) && Faithful(tss, p, i, argument, c)
    ensures IstOf(i.num) == 0 || IstOf(i.num) in p.free
  {
    hide Fits, Faithful, Load, Placed, InStack, Spared, Slot;
    IstBound(i.num);
    if IstOf(i.num) != 0 && IstOf(i.num) !in p.free {
      SlotSpared(tss, p, lim, c, IstOf(i.num));
      SlotOverwritten(tss, p, i, argument, lim, c);
    }
  }

  lemma InnerGuard(tss: Tss, p: Place, i: Irq, argument: Reg, lim: int, c: Cpu)
    requires Placed(tss, p) && Guard(tss, p, lim, c) && p.floor <= c.rsp <= lim && c.rsp < p.top
    requires Fits(tss, i, argument, p.floor, c.rsp) && (IstOf(i.num) == 0 || IstOf(i.num) in p.free)
    ensures var e := Entered(tss, i, c); Guard(tss, Inner(tss, i.num, p), e.rsp + Depth(i.num), e)
  {
    hide RunFits, Pusher, Load, Top, Sound, Entered;
    var q, e := Inner(tss, i.num, p), Entered(tss, i, c);
    var base := EntryBase(tss, IstOf(i.num), c.rsp);
    IstBound(i.num);
    EntryFrame(tss, i, c);
    BaseIs(tss, p, i.num, c.rsp);
    InnerBounds(tss, p, i, argument, c.rsp);
    forall k | 1 <= k <= 4 && k !in q.free
      ensures var v := Load(e.mem, Slot(tss, k));
              && !(q.floor <= Slot(tss, k) < e.rsp + Depth(i.num)) && !(q.floor <= v < q.top)
              && forall m | m in q.free :: !InStack(tss, m, v)
    {
      if k == IstOf(i.num) {
        assert Load(e.mem, Slot(tss, k)) == c.rsp;
      } else {
        SlotSpared(tss, p, lim, c, k);
        if IstOf(i.num) != 0 {
          StacksApart(tss, k, IstOf(i.num));
        }
        assert Load(e.mem, Slot(tss, k)) == Load(c.mem, Slot(tss, k));
      }
    }
  }

  lemma {:induction false} RunFaithfulFree(tss: Tss, p: Place, code: seq<Instr>, steps: Steps, h: Handler, argument: Reg, lim: int, c: Cpu)
    requires Placed(tss, p) && Guard(tss, p, lim, c) && lim < p.top && p.floor <= c.rsp && Level(code, lim - c.rsp)
    requires RunFits(tss, code, steps, h, argument, p.floor, c.rsp)
    requires RunFaithful(tss, p, code, steps, h, argument, c)
    ensures RunFree(code, steps, h, argument, p.free)
    decreases StepsSize(steps) + HandlerSize(h), |code| + 3
  {
    hide Fits, Free, Faithful, HandlerFits, HandlerFree, HandlerFaithful, Placed, Guard, Load, Take, Step;
    if steps.Arrives? {
      FaithfulFree(tss, p, steps.irq, argument, lim, c);
      TakeGuard(tss, p, steps.irq, argument, lim, c);
      RunFaithfulFree(tss, p, code, steps.rest, h, argument, lim, Take(tss, steps.irq, argument, c));
    } else if code != [] {
      if code[0].Call? {
        CallGuard(tss, p, lim, c);
        HandlerFaithfulFree(tss, p, h, argument, c.rsp, lim, PushWord(c, c.rip + 1));
      }
      StepGuard(tss, p, code[0], h, argument, lim, c);
      StepRsp(tss, code[0], h, argument, c);
      MovedBy(code[0], c.rsp);
      RunFaithfulFree(tss, p, code[1..], Later(steps), h, argument, lim, Step(tss, code[0], h, argument, c));
    }
  }

  lemma CallGuard(tss: Tss, p: Place, lim: int, c: Cpu)
    requires Placed(tss, p) && Guard(tss, p, lim, c) && c.rsp <= lim
    ensures p.floor <= c.rsp - 8 ==> Guard(tss, p, lim, PushWord(c, c.rip + 1))
  {
    hide Placed, Guard, InStack, Slot;
    if p.floor <= c.rsp - 8 {
      forall k | 1 <= k <= 4 && k !in p.free
        ensures Load(PushWord(c, c.rip + 1).mem, Slot(tss, k)) == Load(c.mem, Slot(tss, k))
      {
        SlotSpared(tss, p, lim, c, k);
      }
      GuardKept(tss, p, lim, c, PushWord(c, c.rip + 1));
    }
  }

  lemma {:induction false} HandlerFaithfulFree(tss: Tss, p: Place, h: Handler, argument: Reg, frame: int, lim: int, c: Cpu)
    requires Placed(tss, p) && Guard(tss, p, lim, c) && lim < p.top && p.floor <= c.rsp <= frame - 8 && frame <= lim
    requires HandlerFits(tss, h, argument, p.floor, frame, c.rsp) && HandlerFaithful(tss, p, h, argument, frame, c)
    ensures HandlerFree(h, argument, p.free)
    decreases HandlerSize(h), 0
  {
    hide Fits, Free, Faithful, Placed, Guard, Load, Take;
    match h
    case Return =>
    case Interrupted(i, rest) =>
      FaithfulFree(tss, p, i, argument, lim, c);
      TakeGuard(tss, p, i, argument, lim, c);
      HandlerFaithfulFree(tss, p, rest, argument, frame, lim, Take(tss, i, argument, c));
    case _ =>
      ActGuard(tss, p, h, argument, frame, lim, c);
      HandlerFaithfulFree(tss, p, h.rest, argument, frame, lim, Act(h, frame, c));
  }

  /** Of a run in which no stack overflows, every interrupted context comes back
      exactly when no vector arrives whose interrupt stack is in use.  Code that
      runs while all four are free is guarded of itself. */
  lemma NestingExact(tss: Tss, p: Place, i: Irq, argument: Reg, c: Cpu)
    requires argument in {RDI, RCX} && Placed(tss, p) && p.floor <= c.rsp < p.top
    requires Fits(tss, i, argument, p.floor, c.rsp) && Guard(tss, p, c.rsp, c)
    ensures Faithful(tss, p, i, argument, c) <==> Free(i, argument, p.free)
  {
    hide Fits, Free, Faithful, Placed, Guard;
    if Free(i, argument, p.free) {
      FreeFaithful(tss, p, i, argument, c);
    }
    if Faithful(tss, p, i, argument, c) {
      FaithfulFree(tss, p, i, argument, c.rsp, c);
    }
  }

  // --------------------------------------------------- the same stack twice

  /** A handler interrupted on its own interrupt stack loses its context: iretq
      takes the stack pointer of the handler for that of the interrupted code. */
  lemma SameStackLost(tss: Tss, i: Irq, j: Irq, rest: Handler, argument: Reg, floor: int, c: Cpu)
    requires Sound(tss) && argument in {RDI, RCX} && Fits(tss, i, argument, floor, c.rsp)
    requires IstOf(i.num) == IstOf(j.num) != 0
    requires i.steps == Quiet && i.handler == Interrupted(j, rest) && Calm(rest)
    requires j.steps == Quiet && Calm(j.handler)
    ensures !Free(i, argument, {1, 2, 3, 4})
    ensures Take(tss, i, argument, c).rsp == EntryRsp(tss, i, c.rsp) - 136
    ensures InStack(tss, IstOf(i.num), Take(tss, i, argument, c).rsp)
  {
    hide Run, RunFits, HandlerFits, Handle, BeforeCall, AfterCall, ExecAll, Load, Entered, Top, Sound, Free, EntryRsp, Pusher;
    var k, e := IstOf(i.num), Entered(tss, i, c);
    var s := ExecAll(BeforeCall(i.num, argument), e);
    var bottom := Top(tss, k) - STACK_SIZE;
    NotFreeTwice(i, j, rest, argument);
    OnTop(tss, i, c);
    BeforeCallState(i.num, argument, e);
    CallFits(tss, i.num, i.handler, argument, bottom, e);
    InterruptedFits(tss, j, rest, argument, bottom, s.rsp, s.rsp - 8);
    var c2 := PushWord(s, s.rip + 1);
    var c3 := Take(tss, j, argument, c2);
    SecondEntry(tss, j, argument, bottom, c2);
    CalmHandler(tss, rest, argument, bottom, s.rsp, c3);
    var v := Handle(tss, rest, argument, s.rsp, c3);
    QuietPusher(tss, i.num, i.handler, argument, e);
    CallIs(tss, j, rest, argument, s);
    AfterCallMem(i.num, argument, v, e);
    SlotInStack(tss, k);
  }

  lemma OnTop(tss: Tss, i: Irq, c: Cpu)
    requires Sound(tss) && IstOf(i.num) != 0 && Agrees(i)
    ensures var e, k := Entered(tss, i, c), IstOf(i.num);
            && e.rsp == EntryRsp(tss, i, c.rsp) == Top(tss, k) - 40 - Depth(i.num) && e.rsp % 8 == 0
            && Load(e.mem, Slot(tss, k)) == c.rsp && Slot(tss, k) == Top(tss, k) - 16
  {
    hide Load, Entered;
    IstBound(i.num);
    EntryFrame(tss, i, c);
    assert tss[IstOf(i.num) - 1] % 16 == 0;
  }

  lemma InterruptedFits(tss: Tss, j: Irq, rest: Handler, argument: Reg, floor: int, frame: int, rsp: int)
    requires HandlerFits(tss, Interrupted(j, rest), argument, floor, frame, rsp)
    ensures Fits(tss, j, argument, floor, rsp) && HandlerFits(tss, rest, argument, floor, frame, rsp)
  {}

  /** A second entry, from below on the same stack, comes back, but leaves its own
      saved stack pointer where the first had put its. */
  lemma SecondEntry(tss: Tss, j: Irq, argument: Reg, floor: int, c: Cpu)
    requires Sound(tss) && argument in {RDI, RCX} && Fits(tss, j, argument, floor, c.rsp) && IstOf(j.num) != 0
    requires j.steps == Quiet && Calm(j.handler)
    ensures var c' := Take(tss, j, argument, c);
            c'.rsp == c.rsp && Load(c'.mem, Slot(tss, IstOf(j.num))) == c.rsp
  {
    hide Run, RunFits, Load, Entered, Top, Sound, EntryRsp, Pusher;
    var k, e := IstOf(j.num), Entered(tss, j, c);
    OnTop(tss, j, c);
    SlotInStack(tss, k);
    QuietTransparent(tss, j.num, j.handler, argument, Top(tss, k) - STACK_SIZE, e);
  }

  lemma CallIs(tss: Tss, j: Irq, rest: Handler, argument: Reg, s: Cpu)
    ensures Invoke(tss, Interrupted(j, rest), argument, s)
         == Handle(tss, rest, argument, s.rsp, Take(tss, j, argument, PushWord(s, s.rip + 1)))
  {}

  lemma AfterCallMem(num: nat, argument: Reg, v: Cpu, e: Cpu)
    requires v.rsp == e.rsp - 128
    ensures var r := ExecAll(AfterCall(num), v); r.mem == v.mem && r.rsp == e.rsp + Depth(num)
  {
    hide Slice, Load, RESTORE_ISR_REGISTERS;
    if ExpectsErrorCode(num) {
      ExecAppend(RESTORE_ISR_REGISTERS, [AddRsp(16)], v);
      Restored(v);
      ExecOne(AddRsp(16), ExecAll(RESTORE_ISR_REGISTERS, v));
    } else {
      var v1 := Exec(AddRsp(8), v);
      ExecAppend([AddRsp(8)], RESTORE_ISR_REGISTERS, v);
      ExecOne(AddRsp(8), v);
      Restored(v1);
    }
  }

  lemma {:induction false} QuietFree(a: seq<Instr>, b: seq<Instr>, h: Handler, argument: Reg, free: set<nat>)
    requires NoCall(a) && RunFree(a + b, Quiet, h, argument, free)
    ensures RunFree(b, Quiet, h, argument, free)
  {
    if a == [] {
      assert a + b == b;
    } else {
      assert (a + b)[1..] == a[1..] + b && (a + b)[0] == a[0] && a[0] in a;
      assert forall i | i in a[1..] :: i in a;
      QuietFree(a[1..], b, h, argument, free);
    }
  }

  lemma FreeHandler(i: Irq, argument: Reg, free: set<nat>)
    requires Free(i, argument, free) && i.steps == Quiet
    ensures HandlerFree(i.handler, argument, FreeAfter(i.num, free))
  {
    hide BeforeCall, AfterCall, HandlerFree;
    var before, after := BeforeCall(i.num, argument), AfterCall(i.num);
    assert Pusher(i.num, argument) == before + ([Call] + after);
    NoCallAround(i.num, argument);
    QuietFree(before, [Call] + after, i.handler, argument, FreeAfter(i.num, free));
    assert ([Call] + after)[0] == Call;
  }

  lemma NotFreeTwice(i: Irq, j: Irq, rest: Handler, argument: Reg)
    requires IstOf(i.num) == IstOf(j.num) != 0 && i.steps == Quiet && i.handler == Interrupted(j, rest)
    ensures !Free(i, argument, {1, 2, 3, 4})
  {
    hide Pusher, RunFree, IstOf;
    if Free(i, argument, {1, 2, 3, 4}) {
      FreeHandler(i, argument, {1, 2, 3, 4});
    }
  }

  /** Straight code fits if there is room for a word for each instruction. */
  lemma {:induction false} ShortFits(tss: Tss, code: seq<Instr>, h: Handler, argument: Reg, floor: int, rsp: int)
    requires floor + 8 * |code| + 8 <= rsp
    requires forall frame, r :: HandlerFits(tss, h, argument, floor, frame, r)
    ensures RunFits(tss, code, Quiet, h, argument, floor, rsp)
    decreases |code|
  {
    hide HandlerFits;
    if code != [] {
      ShortFits(tss, code[1..], h, argument, floor, Moved(code[0], rsp));
    }
  }

  lemma PusherLength(num: nat, argument: Reg)
    ensures |Pusher(num, argument)| == 37
  {}

  /** The shortest run with two interrupts on interrupt stacks fits from anywhere. */
  lemma TwiceFits(tss: Tss, i: Irq, j: Irq, argument: Reg, floor: int, rsp: int)
    requires Sound(tss) && IstOf(i.num) != 0 && IstOf(j.num) != 0
    requires i.steps == Quiet && i.handler == Interrupted(j, Return) && j.steps == Quiet && j.handler == Return
    requires Agrees(i) && Agrees(j)
    ensures Fits(tss, i, argument, floor, rsp)
  {
    hide Pusher, RunFits, Top, IstOf;
    StackFits(tss, j, argument);
    StackFits(tss, i, argument);
  }

  /** An interrupt on its own stack fits if its handler does. */
  lemma StackFits(tss: Tss, i: Irq, argument: Reg)
    requires Sound(tss) && IstOf(i.num) != 0 && i.steps == Quiet && Agrees(i)
    requires forall floor, frame, r :: HandlerFits(tss, i.handler, argument, floor, frame, r)
    ensures forall floor, rsp :: Fits(tss, i, argument, floor, rsp)
  {
    hide Pusher, RunFits, HandlerFits;
    PusherLength(i.num, argument);
    IstBound(i.num);
    assert tss[IstOf(i.num) - 1] % 16 == 0;
    forall floor: int, rsp: int
      ensures Fits(tss, i, argument, floor, rsp)
    {
      ShortFits(tss, Pusher(i.num, argument), i.handler, argument, Bottom(tss, i.num, floor), EntryRsp(tss, i, rsp));
    }
  }

  // ------------------------------------------------------------ error codes

  lemma {:induction false} CalmFree(code: seq<Instr>, h: Handler, argument: Reg, free: set<nat>)
    requires Calm(h)
    ensures RunFree(code, Quiet, h, argument, free)
    decreases |code|
  {
    CalmHandlerFree(h, argument, free);
    if code != [] {
      CalmFree(code[1..], h, argument, free);
    }
  }

  lemma {:induction false} CalmHandlerFree(h: Handler, argument: Reg, free: set<nat>)
    requires Calm(h)
    ensures HandlerFree(h, argument, free)
    decreases h
  {
    if !h.Return? {
      CalmHandlerFree(h.rest, argument, free);
    }
  }

  /** A pusher brings the interrupted context back exactly when the event's error code,
      or the lack of one, is what its macro was made for.  Else iretq takes its words
      from one place further down, or up. */
  lemma AgreementExact(tss: Tss, p: Place, i: Irq, argument: Reg, c: Cpu)
    requires argument in {RDI, RCX} && Placed(tss, p) && c.rsp <= p.top && c.rip != c.cs
    requires i.steps == Quiet && Calm(i.handler) && (IstOf(i.num) == 0 || IstOf(i.num) in p.free)
    requires var bottom, rsp := Bottom(tss, i.num, p.floor), EntryRsp(tss, i, c.rsp);
             bottom <= rsp && RunFits(tss, Pusher(i.num, argument), Quiet, i.handler, argument, bottom, rsp)
    ensures Unharmed(tss, p, c, Take(tss, i, argument, c)) <==> Agrees(i)
  {
    hide Run, RunFits, RunFree, Pusher, Load, Placed, SameLive, Entered;
    CalmFree(Pusher(i.num, argument), i.handler, argument, FreeAfter(i.num, p.free));
    if Agrees(i) {
      Transparent(tss, p, i, argument, c);
    } else {
      Mistaken(tss, i, argument, Bottom(tss, i.num, p.floor), c);
    }
  }

  lemma Mistaken(tss: Tss, i: Irq, argument: Reg, floor: int, c: Cpu)
    requires argument in {RDI, RCX} && i.steps == Quiet && Calm(i.handler) && !Agrees(i)
    requires RunFits(tss, Pusher(i.num, argument), Quiet, i.handler, argument, floor, EntryRsp(tss, i, c.rsp))
    ensures var c' := Take(tss, i, argument, c);
            if i.error.Some? then c'.rip == i.error.value && c'.cs == c.rip
            else c'.rip == c.cs && c'.cs == c.rflags
  {
    hide Run, RunFits, Pusher, Load, Entered, EntryRsp;
    var e := Entered(tss, i, c);
    EntryFrame(tss, i, c);
    QuietTransparent(tss, i.num, i.handler, argument, floor, e);
  }

  /** For the events of the processor's table that is all vectors but two: 21, the
      control protection exception, has an error code and a pusher without, and 30,
      which the table leaves reserved, a pusher with one. */
  lemma ExceptionExact(tss: Tss, p: Place, i: Irq, argument: Reg, c: Cpu)
    requires argument in {RDI, RCX} && Placed(tss, p) && c.rsp <= p.top && c.rip != c.cs
    requires i.steps == Quiet && Calm(i.handler) && (IstOf(i.num) == 0 || IstOf(i.num) in p.free)
    requires var bottom, rsp := Bottom(tss, i.num, p.floor), EntryRsp(tss, i, c.rsp);
             bottom <= rsp && RunFits(tss, Pusher(i.num, argument), Quiet, i.handler, argument, bottom, rsp)
    requires i.error.Some? <==> PushesErrorCode(i.num)
    ensures Unharmed(tss, p, c, Take(tss, i, argument, c)) <==> i.num !in {21, 30}
  {
    hide Take, RunFits, Pusher, Placed, Unharmed;
    AgreementExact(tss, p, i, argument, c);
  }
}
