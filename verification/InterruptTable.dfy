/** The interrupt descriptor table: gates, and the 256 of them InitializeISR sets. */
module InterruptTable {
  import opened Words

  datatype Gate = Gate(offset1: nat, segmentSelector: nat, istAndZero: nat, misc: nat,
                       offset2: nat, offset3: nat, reserved: nat)

  const EMPTY_GATE: Gate := Gate(0, 0, 0, 0, 0, 0, 0)

  /** The handler address the processor puts together from a gate (Intel SDM,
      Vol. 3A, section 6.14.1). */
  function Target(g: Gate): nat {
    g.offset1 + 0x1_0000 * g.offset2 + 0x1_0000_0000 * g.offset3
  }

  /** Which setter InitializeISR uses for a vector. */
  datatype Kind = Plain | NMI | MC | BP

  function KindOf(v: nat): Kind {
    match v
    case 2 => NMI
    case 3 => BP
    case 8 => MC   // the double fault: not the setter made for it
    case 18 => MC
    case _ => Plain
  }

  /** The interrupt stack (IST) each setter selects; 0 is the current stack. */
  function Stack(k: Kind): nat {
    match k
    case Plain => 0
    case NMI => 1
    case MC => 3
    case BP => 4
  }

  /** The stack set up in the task state segment for a vector. */
  function IntendedStack(v: nat): nat {
    match v
    case 2 => 1
    case 8 => 2
    case 18 => 3
    case 3 => 4
    case _ => 0
  }

  /** An interrupt gate in the kernel's code segment that reaches `target`. */
  predicate Reaches(g: Gate, target: Address, k: Kind) {
    && Target(g) == target && g.offset1 < 0x1_0000 && g.offset2 < 0x1_0000 && g.offset3 < 0x1_0000_0000
    && g.segmentSelector == 0x08 && g.misc == 0x8E && g.istAndZero == Stack(k) && g.reserved == 0
  }

  /** The order of InitializeISR's calls. */
  function Order(n: nat): nat
    requires n < 256
  {
    if n < 15 then n
    else if n < 20 then n + 1        // 16 to 20
    else if n == 20 then 30
    else if n == 21 then 15
    else if n < 31 then n - 1        // 21 to 29
    else n                           // 31 to 255
  }

  function Position(v: nat): nat
    requires v < 256
  {
    if v < 15 then v
    else if v == 15 then 21
    else if v <= 20 then v - 1
    else if v < 30 then v + 1
    else if v == 30 then 20
    else v
  }

  /** Every vector has its turn, once. */
  lemma OrderComplete(v: nat)
    requires v < 256
    ensures Position(v) < 256 && Order(Position(v)) == v
    ensures Order(v) < 256 && Position(Order(v)) == v
  {}

  class InterruptDescriptors {
    const idt: array<Gate>

    constructor ()
      ensures idt.Length == 256 && fresh(idt)
    {
      idt := new Gate[256](_ => EMPTY_GATE);
    }

    method SetInterruptEntry(isrNum: nat, isrAddr: Address)
      requires isrNum < idt.Length
      modifies idt
      ensures Reaches(idt[isrNum], isrAddr, Plain)
      ensures forall v | 0 <= v < idt.Length && v != isrNum :: idt[v] == old(idt[v])
    {
      SetGate(isrNum, isrAddr, 0x00);
    }

    method SetNMIInterruptEntry(isrNum: nat, isrAddr: Address)
      requires isrNum < idt.Length
      modifies idt
      ensures Reaches(idt[isrNum], isrAddr, NMI)
      ensures forall v | 0 <= v < idt.Length && v != isrNum :: idt[v] == old(idt[v])
    {
      SetGate(isrNum, isrAddr, 1);
    }

    method SetMCInterruptEntry(isrNum: nat, isrAddr: Address)
      requires isrNum < idt.Length
      modifies idt
      ensures Reaches(idt[isrNum], isrAddr, MC)
      ensures forall v | 0 <= v < idt.Length && v != isrNum :: idt[v] == old(idt[v])
    {
      SetGate(isrNum, isrAddr, 3);
    }

    method SetBPInterruptEntry(isrNum: nat, isrAddr: Address)
      requires isrNum < idt.Length
      modifies idt
      ensures Reaches(idt[isrNum], isrAddr, BP)
      ensures forall v | 0 <= v < idt.Length && v != isrNum :: idt[v] == old(idt[v])
    {
      SetGate(isrNum, isrAddr, 4);
    }

    /** The field assignments all setters share; each cast keeps the low bits. */
    method SetGate(isrNum: nat, isrAddr: Address, ist: nat)
      requires isrNum < idt.Length
      modifies idt
      ensures Target(idt[isrNum]) == isrAddr
      ensures var g := idt[isrNum];
              && g.offset1 < 0x1_0000 && g.offset2 < 0x1_0000 && g.offset3 < 0x1_0000_0000
              && g.segmentSelector == 0x08 && g.misc == 0x8E && g.istAndZero == ist && g.reserved == 0
      ensures forall v | 0 <= v < idt.Length && v != isrNum :: idt[v] == old(idt[v])
    {
      idt[isrNum] := idt[isrNum].(offset1 := isrAddr % 0x1_0000);
      idt[isrNum] := idt[isrNum].(segmentSelector := 0x08);
      idt[isrNum] := idt[isrNum].(istAndZero := ist);
      idt[isrNum] := idt[isrNum].(misc := 0x8E);
      idt[isrNum] := idt[isrNum].(offset2 := isrAddr / 0x1_0000 % 0x1_0000);
      idt[isrNum] := idt[isrNum].(offset3 := isrAddr / 0x1_0000_0000 % 0x1_0000_0000);
      idt[isrNum] := idt[isrNum].(reserved := 0);
      SplitAddress(isrAddr);
    }

    /** Sets all 256 gates, for pushers at any addresses. */
    method InitializeISR(pushers: seq<Address>)
      requires idt.Length == 256 && |pushers| == 256
      modifies idt
      ensures forall v | 0 <= v < 256 :: Reaches(idt[v], pushers[v], KindOf(v))
    {
      hide Reaches;
      for n := 0 to 256
        invariant forall v | 0 <= v < 256 && Position(v) < n :: Reaches(idt[v], pushers[v], KindOf(v))
      {
        var v := Order(n);
        OrderComplete(n);
        match KindOf(v) {
          case Plain => SetInterruptEntry(v, pushers[v]);
          case NMI => SetNMIInterruptEntry(v, pushers[v]);
          case MC => SetMCInterruptEntry(v, pushers[v]);
          case BP => SetBPInterruptEntry(v, pushers[v]);
        }
        forall u | 0 <= u < 256 && Position(u) < n + 1 && u != v
          ensures Position(u) < n
        {
          OrderComplete(u);
        }
      }
    }
  }

  /** In an initialized table every gate but one selects its own stack: the double
      fault gate has the machine check's. */
  lemma WrongStackExact(gates: seq<Gate>, pushers: seq<Address>, v: nat)
    requires |gates| == 256 && |pushers| == 256 && v < 256
    requires forall u | 0 <= u < 256 :: Reaches(gates[u], pushers[u], KindOf(u))
    ensures gates[v].istAndZero == IntendedStack(v) <==> v != 8
    ensures gates[8].istAndZero == IntendedStack(18)
  {
    assert Reaches(gates[v], pushers[v], KindOf(v)) && Reaches(gates[8], pushers[8], KindOf(8));
  }

  lemma SplitAddress(a: Address)
    ensures a == a % 0x1_0000 + 0x1_0000 * (a / 0x1_0000 % 0x1_0000)
              + 0x1_0000_0000 * (a / 0x1_0000_0000 % 0x1_0000_0000)
  {
    var high := a / 0x1_0000_0000;
    var low := a % 0x1_0000_0000;
    assert a == 0x1_0000_0000 * high + low && high < 0x1_0000_0000;
    assert a / 0x1_0000 == 0x1_0000 * high + low / 0x1_0000;
  }
}
