/** The search for a load address that is really free, against a firmware that
    may answer anything at any call. */
module BaseSearch {
  import opened Words
  import opened Memory
  import opened Options
  import opened FreeAddress

  const FIRST_TRY: Address := 0x4000_0000

  // --------------------------------------------------------------- firmware

  datatype Status = Success | NotFound | OtherError

  /** What the firmware does at one call: the status it answers, the memory map
      it would report, and what memory holds afterwards. */
  datatype Reply = Reply(status: Status, memoryMap: MemoryMap, mem: Mem)

  datatype Block = Block(base: nat, pages: nat)

  /** `seen` is what memory held when the block was given back. */
  datatype Event = Took(block: Block) | Gave(block: Block, seen: Mem)

  datatype Ledger = Nothing | Holds(block: Block) | Broken

  /** Broken: a second block taken, or a block given back that is not held. */
  function Enter(l: Ledger, e: Event): Ledger {
    match (l, e)
    case (Nothing, Took(b)) => Holds(b)
    case (Holds(b), Gave(b', _)) => if b == b' then Nothing else Broken
    case _ => Broken
  }

  function LedgerOf(log: seq<Event>): Ledger {
    if log == [] then Nothing else Enter(LedgerOf(log[..|log| - 1]), log[|log| - 1])
  }

  /** The blocks taken and not yet given back. */
  function Held(log: seq<Event>): multiset<Block> {
    if log == [] then multiset{}
    else
      var before := Held(log[..|log| - 1]);
      match log[|log| - 1]
      case Took(b) => before + multiset{b}
      case Gave(b, _) => before - multiset{b}
  }

  /** What AllocatePages can grant at all: whole pages of the 52-bit physical
      address space. */
  predicate Grantable(base: nat, pages: nat) {
    base % 4096 == 0 && base + 4096 * pages <= 0x10_0000_0000_0000
  }

  function Tail(script: seq<Reply>): seq<Reply> {
    if script == [] then [] else script[1..]
  }

  /** What AllocatePages answers when asked for `base`. */
  function Answer(script: seq<Reply>, base: Address, pages: nat): Status {
    if script == [] then OtherError
    else if script[0].status == Success && !Grantable(base, pages) then NotFound
    else script[0].status
  }

  function MapIn(script: seq<Reply>): MemoryMap {
    if script == [] then None else script[0].memoryMap
  }

  /** Memory after the next call. */
  function MemIn(script: seq<Reply>, mem: Mem): Mem {
    if script == [] then mem else script[0].mem
  }

  /** The firmware follows a script; past its end every call fails, so the runs
      are all prefixes of all behaviours. */
  class Firmware {
    var script: seq<Reply>
    var mem: Mem
    ghost var log: seq<Event>
    ghost var tried: seq<Address>  // the bases asked for, except NONE
    ghost var refused: bool        // a FreePages call has failed
    ghost var cut: bool            // an AllocatePages call has failed outright, or the script has ended

    constructor (script: seq<Reply>, mem: Mem)
      ensures this.script == script && this.mem == mem && log == [] && tried == [] && !refused && !cut
    {
      this.script, this.mem := script, mem;
      log, tried, refused, cut := [], [], false, false;
    }

    /** The log is in order and no block is held. */
    ghost predicate Free()
      reads this
    {
      LedgerOf(log) == Nothing && GivesBackDirty(log)
    }

    /** The log is in order and `pages` pages at `base` are held. */
    ghost predicate Holding(base: nat, pages: nat)
      reads this
    {
      Grantable(base, pages) && LedgerOf(log) == Holds(Block(base, pages)) && GivesBackDirty(log)
    }

    /** AllocatePages with AllocateAddress. */
    method AllocatePages(pages: nat, base: Address) returns (status: Status)
      modifies this
      ensures script == Tail(old(script)) && mem == MemIn(old(script), old(mem)) && refused == old(refused)
      ensures status == Answer(old(script), base, pages)
      ensures tried == if base == NONE then old(tried) else old(tried) + [base]
      ensures cut == (old(cut) || status == OtherError)
      ensures old(script) == [] ==> status == OtherError
      ensures status == Success <==> old(script) != [] && old(script)[0].status == Success
                                     && base % 4096 == 0 && base + 4096 * pages <= 0x10_0000_0000_0000
      ensures status == Success ==> Grantable(base, pages)
      ensures log == if status == Success then old(log) + [Took(Block(base, pages))] else old(log)
      ensures old(Free()) ==> if status == Success then Holding(base, pages) else Free()
    {
      status := OtherError;
      if script != [] {
        status, mem, script := script[0].status, script[0].mem, script[1..];
      }
      if status == Success && !Grantable(base, pages) {
        status := NotFound;
      }
      tried := if base == NONE then tried else tried + [base];
      log := if status == Success then log + [Took(Block(base, pages))] else log;
      cut := cut || status == OtherError;
    }

    method FreePages(base: Address, pages: nat) returns (status: Status)
      modifies this
      ensures script == Tail(old(script)) && (old(script) == [] ==> status == OtherError)
      ensures tried == old(tried) && cut == old(cut) && refused == (old(refused) || status != Success)
      ensures log == if status == Success then old(log) + [Gave(Block(base, pages), old(mem))] else old(log)
      ensures old(Holding(base, pages)) && !Usable(old(mem), base, pages) ==>
        if status == Success then Free() else Holding(base, pages)
    {
      status := OtherError;
      ghost var seen := mem;
      if script != [] {
        status, mem, script := script[0].status, script[0].mem, script[1..];
      }
      log := if status == Success then log + [Gave(Block(base, pages), seen)] else log;
      refused := refused || status != Success;
    }

    method GetMemoryMap() returns (mm: MemoryMap)
      modifies this
      ensures script == Tail(old(script)) && log == old(log) && refused == old(refused) && tried == old(tried)
      ensures cut == (old(cut) || old(script) == [])
      ensures mm == MapIn(old(script))
    {
      mm := None;
      cut := cut || script == [];
      if script != [] {
        mm, mem, script := script[0].memoryMap, script[0].mem, script[1..];
      }
    }

    /** Clearing memory that may not behave like memory. */
    method ZeroMem(base: Address, bytes: nat)
      modifies this
      ensures script == Tail(old(script)) && mem == MemIn(old(script), old(mem))
      ensures log == old(log) && refused == old(refused) && tried == old(tried) && cut == old(cut)
    {
      if script != [] {
        mem, script := script[0].mem, script[1..];
      }
    }
  }

  // ------------------------------------------------------ looking at a block

  ghost predicate AllZero(mem: Mem, base: nat, bytes: nat) {
    forall x: nat | base <= x < base + bytes :: LoadByte(mem, x) == 0
  }

  const ELF_MAGIC: seq<Byte> := [0x7f, 0x45, 0x4c, 0x46]

  ghost predicate HasMagic(mem: Mem, base: nat) {
    && LoadByte(mem, base) == 127 && LoadByte(mem, base + 1) == 'E' as nat
    && LoadByte(mem, base + 2) == 'L' as nat && LoadByte(mem, base + 3) == 'F' as nat
  }

  method VerifyZeroMem(mem: Mem, bytes: nat, base: nat) returns (dirty: bool)
    ensures dirty <==> !AllZero(mem, base, bytes)
  {
    for i := 0 to bytes
      invariant AllZero(mem, base, i)
    {
      if LoadByte(mem, base + i) != 0 {
        return true;
      }
    }
    return false;
  }

  method Compare(mem: Mem, base: nat, magic: seq<Byte>) returns (same: bool)
    ensures same <==> forall i | 0 <= i < |magic| :: LoadByte(mem, base + i) == magic[i]
  {
    for i := 0 to |magic|
      invariant forall j | 0 <= j < i :: LoadByte(mem, base + j) == magic[j]
    {
      if LoadByte(mem, base + i) != magic[i] {
        return false;
      }
    }
    return true;
  }

  method CompareMagic(mem: Mem, base: nat) returns (same: bool)
    ensures same <==> HasMagic(mem, base)
  {
    same := Compare(mem, base, ELF_MAGIC);
    assert ELF_MAGIC[0] == 127 && ELF_MAGIC[1] == 'E' as nat && ELF_MAGIC[2] == 'L' as nat && ELF_MAGIC[3] == 'F' as nat;
  }

  ghost predicate Usable(mem: Mem, base: nat, pages: nat) {
    AllZero(mem, base, 4096 * pages) || HasMagic(mem, base)
  }

  /** Only blocks found dirty, and not an old kernel's, are given back. */
  ghost predicate GivesBackDirty(log: seq<Event>) {
    forall i | 0 <= i < |log| && log[i].Gave? :: !Usable(log[i].seen, log[i].block.base, log[i].block.pages)
  }

  // ---------------------------------------------------------------- stepping

  /** The firmware keeps reporting the map `ds`. */
  ghost predicate Fixed(script: seq<Reply>, ds: seq<Descriptor>) {
    forall r | r in script :: r.memoryMap == Some(ds)
  }

  /** `tried` has come as far as leaving `rest` of the addresses `all`. */
  ghost predicate Left(tried: seq<Address>, rest: seq<Address>, all: seq<Address>) {
    tried + rest == all
  }

  lemma TryNext(tried: seq<Address>, a: Address, rest: seq<Address>, all: seq<Address>)
    ensures Left(tried, [a] + rest, all) ==> Left(tried + [a], rest, all)
  {
    assert (tried + [a]) + rest == tried + ([a] + rest);
  }

  lemma LeftAll(tried: seq<Address>, rest: seq<Address>)
    ensures Left(tried, rest, tried + rest)
  {}

  lemma LeftTrans(tried: seq<Address>, rest: seq<Address>, tried': seq<Address>, rest': seq<Address>, all: seq<Address>)
    ensures Left(tried, rest, all) && Left(tried', rest', tried + rest) ==> Left(tried', rest', all)
  {}

  /** The firmware calls a search at `from` can still make, on a fixed map. */
  ghost function Budget(ds: seq<Descriptor>, pages: nat, from: Address): nat {
    4 * CountAbove(ds, pages, from)
  }

  /** A by-section step past `from`, and past the known bad address. */
  method NextSection(fw: Firmware, pages: nat, from: Address, bad: Address, ghost ds: seq<Descriptor>)
    returns (next: Address)
    requires bad != NONE
    modifies fw
    ensures fw.log == old(fw.log) && fw.refused == old(fw.refused) && fw.tried == old(fw.tried)
    ensures old(fw.cut) ==> fw.cut
    ensures next != bad && (next == NONE || next > from)
    ensures |old(fw.script)| - 2 <= |fw.script| <= |old(fw.script)|
    ensures Fixed(old(fw.script), ds) ==>
      && Fixed(fw.script, ds)
      && (next == NONE || Budget(ds, pages, next) + 4 <= Budget(ds, pages, from))
      && (fw.cut || Sections(ds, pages, from, bad) == if next == NONE then [] else [next] + Sections(ds, pages, next, bad))
      && (next == NONE || Sections(ds, pages, from, bad) == [next] + Sections(ds, pages, next, bad))
  {
    var mm := fw.GetMemoryMap();
    next := ActuallyFreeAddress(mm, pages, from);
    StepCount(mm, pages, from, ds);
    if next == bad {
      mm := fw.GetMemoryMap();
      StepCount(mm, pages, next, ds);
      next := ActuallyFreeAddress(mm, pages, next);
    }
  }

  lemma StepCount(mm: MemoryMap, pages: nat, from: Address, ds: seq<Descriptor>)
    ensures mm == Some(ds) && FirstSuiting(ds, pages, from) != NONE ==>
      Budget(ds, pages, FirstSuiting(ds, pages, from)) + 4 <= Budget(ds, pages, from)
  {
    if FirstSuiting(ds, pages, from) != NONE {
      CountDrops(ds, pages, from);
    }
  }

  function ByPage(mm: MemoryMap, pages: nat, from: Address): Address {
    if mm.None? then NONE else FirstPage(mm.value, pages, from)
  }

  /** A by-page step past `from`, and past the known bad address, with the script
      that is left. */
  function PageStep(script: seq<Reply>, pages: nat, from: Address, bad: Address): (Address, seq<Reply>) {
    var a := ByPage(MapIn(script), pages, from);
    if a == bad then (ByPage(MapIn(Tail(script)), pages, a), Tail(Tail(script))) else (a, Tail(script))
  }

  method NextPage(fw: Firmware, pages: nat, from: Address, bad: Address) returns (next: Address)
    modifies fw
    ensures fw.log == old(fw.log) && fw.refused == old(fw.refused) && fw.tried == old(fw.tried)
    ensures (next, fw.script) == PageStep(old(fw.script), pages, from, bad)
    ensures fw.cut == (old(fw.cut) || PageStepCut(old(fw.script), pages, from, bad))
  {
    var mm := fw.GetMemoryMap();
    next := ActuallyFreeAddressByPage(mm, pages, from);
    if next == bad {
      mm := fw.GetMemoryMap();
      next := ActuallyFreeAddressByPage(mm, pages, next);
    }
  }

  /** The step asks for a map past the end of the script. */
  predicate PageStepCut(script: seq<Reply>, pages: nat, from: Address, bad: Address) {
    script == [] || (ByPage(MapIn(script), pages, from) == bad && Tail(script) == [])
  }

  /** The step on a map that does not change. */
  function PageAfter(ds: seq<Descriptor>, pages: nat, from: Address, bad: Address): Address {
    var a := FirstPage(ds, pages, from);
    if a == bad then FirstPage(ds, pages, a) else a
  }

  lemma FixedTail(script: seq<Reply>, ds: seq<Descriptor>)
    requires Fixed(script, ds)
    ensures Fixed(Tail(script), ds)
  {}

  lemma PageStepFixed(script: seq<Reply>, ds: seq<Descriptor>, pages: nat, from: Address, bad: Address)
    requires Fixed(script, ds)
    ensures Fixed(PageStep(script, pages, from, bad).1, ds)
    ensures PageStep(script, pages, from, bad).0 == PageAfter(ds, pages, from, bad) || PageStepCut(script, pages, from, bad)
    ensures PageStepCut(script, pages, from, bad) ==> PageStep(script, pages, from, bad).1 == []
  {
    FixedTail(script, ds);
    FixedTail(Tail(script), ds);
    if script != [] {
      assert script[0] in script;
      if Tail(script) != [] {
        assert Tail(script)[0] in script;
      }
    }
  }

  // ------------------------------------------- the by-page search goes upwards

  /** Whatever has come before, an aligned address of the by-page search is feasible
      and not below the first section; unaligned ones are never granted. */
  ghost predicate InPlace(ds: seq<Descriptor>, pages: nat, a: Address) {
    a % 4096 == 0 ==> Feasible(ds, pages, a) && FirstSuiting(ds, pages, 0) <= a
  }

  lemma PageAfterInPlace(ds: seq<Descriptor>, pages: nat, from: Address, bad: Address)
    requires WellFormed(ds) && 0 < pages && InPlace(ds, pages, from)
    ensures InPlace(ds, pages, PageAfter(ds, pages, from, bad))
  {
    hide InPlace, FirstPage;
    StepInPlace(ds, pages, from);
    StepInPlace(ds, pages, FirstPage(ds, pages, from));
  }

  lemma StepInPlace(ds: seq<Descriptor>, pages: nat, from: Address)
    requires WellFormed(ds) && 0 < pages
    ensures InPlace(ds, pages, from) ==> InPlace(ds, pages, FirstPage(ds, pages, from))
  {
    hide Feasible, FirstPage, FirstSuiting, WellFormed;
    if InPlace(ds, pages, from) {
      if from % 4096 == 0 {
        FeasibleRoom(ds, pages, from);
        ByPageSuccessor(ds, pages, from);
      } else {
        FromUnaligned(ds, pages, from);
      }
    }
  }

  /** From an unaligned address the search only comes to an aligned one at the start
      of a suitable section. */
  lemma {:induction false} FromUnaligned(ds: seq<Descriptor>, pages: nat, from: Address)
    requires WellFormed(ds) && 0 < pages && from % 4096 != 0
    ensures var a := FirstPage(ds, pages, from);
            a % 4096 == 0 ==> Feasible(ds, pages, a) && FirstSuiting(ds, pages, 0) <= a
  {
    if ds != [] {
      hide FirstSuiting, WellFormed;
      var a := FirstPage(ds, pages, from);
      WellFormedTail(ds);
      FeasibleCons(ds, pages);
      FirstSuitingCons(ds, pages);
      UnalignedStep(ds[0], pages, from);
      FromUnaligned(ds[1..], pages, from);
    }
  }

  lemma WellFormedTail(ds: seq<Descriptor>)
    requires WellFormed(ds) && ds != []
    ensures WellFormed(ds[1..])
  {}

  /** In a sorted map an earlier descriptor starts lower. */
  lemma FirstSuitingCons(ds: seq<Descriptor>, pages: nat)
    requires WellFormed(ds) && ds != []
    ensures FirstSuiting(ds, pages, 0) == ds[0].start || FirstSuiting(ds, pages, 0) == FirstSuiting(ds[1..], pages, 0)
    ensures Suits(ds[0], pages, 0) ==> FirstSuiting(ds, pages, 0) == ds[0].start
    ensures Suits(ds[0], pages, 0) ==> ds[0].start <= FirstSuiting(ds[1..], pages, 0)
  {
    WellFormedTail(ds);
    if FirstSuiting(ds[1..], pages, 0) != NONE {
      var i := SuitingAt(ds[1..], pages, 0);
      assert ds[1..][i] == ds[i + 1];
    }
  }

  lemma {:induction false} SuitingAt(ds: seq<Descriptor>, pages: nat, last: Address) returns (i: nat)
    requires FirstSuiting(ds, pages, last) != NONE
    ensures i < |ds| && ds[i].start == FirstSuiting(ds, pages, last)
  {
    if Suits(ds[0], pages, last) {
      i := 0;
    } else {
      i := SuitingAt(ds[1..], pages, last);
      i := i + 1;
    }
  }

  lemma UnalignedStep(d: Descriptor, pages: nat, from: Address)
    requires from % 4096 != 0 && d.start % 4096 == 0
    ensures PageIn(d, pages, from).Some? ==>
      var a := PageIn(d, pages, from).value;
      a % 4096 == 0 ==> Suits(d, pages, 0) && a == d.start && Fits(d, pages, a)
  {}

  // ----------------------------------------------------------------- stages

  /** Stage one: address 0, then section after section, until one is granted. */
  method TakeSection(fw: Firmware, pages: nat, bad: Address, ghost ds: seq<Descriptor>)
    returns (base: Option<Address>)
    requires fw.Free() && bad != NONE && bad != 0
    modifies fw
    ensures old(fw.tried) <= fw.tried
    ensures base.Some? ==> base.value !in {bad, NONE} && fw.Holding(base.value, pages)
    ensures base.None? ==> fw.Free()
    ensures fw.log == if base.None? then old(fw.log) else old(fw.log) + [Took(Block(base.value, pages))]
    ensures fw.refused == old(fw.refused) && (old(fw.cut) ==> fw.cut)
    ensures Fixed(old(fw.script), ds) ==>
      && Fixed(fw.script, ds)
      && |old(fw.script)| - |fw.script| + (if base.Some? then Budget(ds, pages, base.value) else 0)
           <= Budget(ds, pages, 0) + 3
      && (base.Some? || !fw.cut ==>
            Left(fw.tried, Rest(ds, pages, base, bad), old(fw.tried) + [0] + Sections(ds, pages, 0, bad)))
  {
    hide Sections, CountAbove, LedgerOf, GivesBackDirty, Left;
    var newAddress: Address := 0;
    var status := fw.AllocatePages(pages, newAddress);
    ghost var all := old(fw.tried) + [0] + Sections(ds, pages, 0, bad);
    LeftAll(fw.tried, Sections(ds, pages, 0, bad));
    while status != Success
      invariant old(fw.tried) <= fw.tried
      invariant newAddress !in {bad, NONE} && fw.refused == old(fw.refused)
      invariant old(fw.cut) || status == OtherError ==> fw.cut
      invariant if status == Success then fw.Holding(newAddress, pages) else fw.Free()
      invariant fw.log == if status == Success then old(fw.log) + [Took(Block(newAddress, pages))] else old(fw.log)
      invariant Fixed(old(fw.script), ds) ==>
        && Fixed(fw.script, ds)
        && |old(fw.script)| - |fw.script| + Budget(ds, pages, newAddress) <= Budget(ds, pages, 0) + 1
        && Left(fw.tried, Sections(ds, pages, newAddress, bad), all)
      decreases |fw.script|, if status == OtherError then 0 else 1
    {
      if status == NotFound {
        newAddress := NextSection(fw, pages, newAddress, bad, ds);
      } else {
        return None;
      }
      if newAddress == NONE {
        return None;
      }
      TryNext(fw.tried, newAddress, Sections(ds, pages, newAddress, bad), all);
      status := fw.AllocatePages(pages, newAddress);
    }
    base := Some(newAddress);
  }

  /** The sections after `base`; none after exhaustion. */
  ghost function Rest(ds: seq<Descriptor>, pages: nat, base: Option<Address>, bad: Address): seq<Address> {
    if base.None? || base.value == NONE then [] else Sections(ds, pages, base.value, bad)
  }

  /** Stage two's inner loop: the next section after `from` that is granted. */
  method RetakeSection(fw: Firmware, pages: nat, from: Address, bad: Address, ghost ds: seq<Descriptor>)
    returns (failed: bool, next: Address)
    requires from != NONE && bad != NONE && fw.Free()
    modifies fw
    ensures old(fw.tried) <= fw.tried
    ensures fw.refused == old(fw.refused) && |fw.script| <= |old(fw.script)| && old(fw.log) <= fw.log
    ensures old(fw.cut) || failed ==> fw.cut
    ensures failed || next == NONE ==> fw.Free()
    ensures !failed ==> next != bad && (next != NONE ==> fw.Holding(next, pages))
    ensures Fixed(old(fw.script), ds) ==>
      && Fixed(fw.script, ds)
      && |old(fw.script)| - |fw.script| + (if failed || next == NONE then 0 else Budget(ds, pages, next) + 1)
           <= Budget(ds, pages, from) + (if failed || next == NONE then 3 else 0)
      && (!failed && (next != NONE || !fw.cut) ==>
            Left(fw.tried, Rest(ds, pages, Some(next), bad), old(fw.tried) + Sections(ds, pages, from, bad)))
  {
    hide Sections, CountAbove, LedgerOf, GivesBackDirty, Left;
    failed, next := false, from;
    var status := NotFound;
    ghost var all := old(fw.tried) + Sections(ds, pages, from, bad);
    LeftAll(fw.tried, Sections(ds, pages, from, bad));
    while status != Success && next != NONE
      invariant old(fw.tried) <= fw.tried
      invariant fw.refused == old(fw.refused) && |fw.script| <= |old(fw.script)| && old(fw.log) <= fw.log
      invariant old(fw.cut) || status == OtherError ==> fw.cut
      invariant if status == Success then fw.Holding(next, pages) else fw.Free()
      invariant next == from ==> status == NotFound && fw.script == old(fw.script)
      invariant next != from ==> next != bad && (next == NONE || next > from)
      invariant status == Success ==> next !in {bad, NONE}
      invariant Fixed(old(fw.script), ds) ==>
        && Fixed(fw.script, ds)
        && |old(fw.script)| - |fw.script| + (if next == NONE then 0 else Budget(ds, pages, next))
             <= Budget(ds, pages, from) + (if next == NONE then 3 else if next == from then 0 else -1)
        && (next != NONE || !fw.cut ==> Left(fw.tried, Rest(ds, pages, Some(next), bad), all))
      decreases |fw.script|, if status == OtherError then 0 else 1
    {
      if status == NotFound {
        next := NextSection(fw, pages, next, bad, ds);
      } else {
        return true, next;
      }
      TryNext(fw.tried, next, Sections(ds, pages, next, bad), all);
      status := fw.AllocatePages(pages, next);
    }
  }

  /** Stage two: verify what was granted; give it back and move to the next
      section while it is neither zero nor an old kernel.  NONE: no section left. */
  method SettleSection(fw: Firmware, pages: nat, start: Address, bad: Address, ghost ds: seq<Descriptor>)
    returns (failed: bool, base: Address)
    requires start !in {bad, NONE} && bad != NONE && fw.Holding(start, pages) && !fw.refused
    modifies fw
    ensures old(fw.tried) <= fw.tried
    ensures base != bad && (old(fw.cut) ==> fw.cut) && (!failed ==> !fw.refused) && old(fw.log) <= fw.log
    ensures failed ==> if fw.refused then fw.Holding(base, pages) else fw.Free() && fw.cut
    ensures !failed && base == NONE ==> fw.Free()
    ensures !failed && base != NONE ==> fw.Holding(base, pages) && Usable(fw.mem, base, pages)
    ensures Fixed(old(fw.script), ds) ==>
      && Fixed(fw.script, ds)
      && |old(fw.script)| - |fw.script| <= Budget(ds, pages, start) + 4
      && (!failed && (base != NONE || !fw.cut) ==>
            Left(fw.tried, Rest(ds, pages, Some(base), bad), old(fw.tried) + Sections(ds, pages, start, bad)))
  {
    hide Sections, CountAbove, LedgerOf, GivesBackDirty, Left, AllZero, HasMagic;
    failed, base := false, start;
    var newAddress := start;
    ghost var all := old(fw.tried) + Sections(ds, pages, start, bad);
    LeftAll(fw.tried, Sections(ds, pages, start, bad));
    var dirty := VerifyZeroMem(fw.mem, 4096 * pages, base);
    while newAddress != NONE && dirty
      invariant old(fw.tried) <= fw.tried
      invariant base == newAddress != bad && !fw.refused && !failed && old(fw.log) <= fw.log
      invariant old(fw.cut) ==> fw.cut
      invariant if base == NONE then fw.Free() else fw.Holding(base, pages)
      invariant dirty <==> !AllZero(fw.mem, base, 4096 * pages)
      invariant Fixed(old(fw.script), ds) ==>
        && Fixed(fw.script, ds)
        && |old(fw.script)| - |fw.script| + (if base == NONE then 0 else Budget(ds, pages, base))
             <= Budget(ds, pages, start) + (if base == NONE then 4 else 0)
        && (base != NONE || !fw.cut ==> Left(fw.tried, Rest(ds, pages, Some(base), bad), all))
      decreases |fw.script|
    {
      var remains := CompareMagic(fw.mem, base);
      if remains {
        break;
      }
      var status := fw.FreePages(base, pages);
      if status != Success {
        return true, base;
      }
      ghost var before := fw.tried;
      failed, newAddress := RetakeSection(fw, pages, base, bad, ds);
      if failed {
        return;
      }
      LeftTrans(before, Sections(ds, pages, base, bad), fw.tried, Rest(ds, pages, Some(newAddress), bad), all);
      base := newAddress;
      dirty := VerifyZeroMem(fw.mem, 4096 * pages, base);
    }
  }

  /** The map tells where stage three starts and goes. */
  ghost predicate Charted(script: seq<Reply>, ds: seq<Descriptor>, pages: nat) {
    Fixed(script, ds) && WellFormed(ds) && 0 < pages && FirstSuiting(ds, pages, 0) != NONE
  }

  /** The by-page search is at `at`: of the bases `all` it has tried those up to `at`,
      in order, or, having come past the last, every one; and `at`, if it is a base
      at all, is feasible and not below the first section. */
  ghost predicate Visited(ds: seq<Descriptor>, pages: nat, bad: Address, tried: seq<Address>, at: Address, all: seq<Address>) {
    && InPlace(ds, pages, at)
    && ((at % 4096 == 0 && Left(tried, PagesBut(ds, pages, at, bad), all)) || all <= tried)
  }

  /** A step of the by-page search, and asking for what it finds. */
  lemma VisitNext(ds: seq<Descriptor>, pages: nat, bad: Address, tried: seq<Address>, at: Address, all: seq<Address>)
    requires WellFormed(ds) && 0 < pages && bad < U64 - 4096 && Visited(ds, pages, bad, tried, at, all)
    ensures var next := PageAfter(ds, pages, at, bad);
            Visited(ds, pages, bad, if next == NONE then tried else tried + [next], next, all)
  {
    hide InPlace, PagesBut, FirstPage, WellFormed, PageAfter;
    var next := PageAfter(ds, pages, at, bad);
    PageAfterInPlace(ds, pages, at, bad);
    if at % 4096 == 0 && Left(tried, PagesBut(ds, pages, at, bad), all) {
      Room(ds, pages, at);
      PagesButIs(ds, pages, at, bad);
      if next != NONE {
        PagesButNext(ds, pages, at, bad, next);
        TryNext(tried, next, PagesBut(ds, pages, next, bad), all);
      }
    }
  }

  lemma Room(ds: seq<Descriptor>, pages: nat, a: Address)
    requires WellFormed(ds) && 0 < pages && InPlace(ds, pages, a) && a % 4096 == 0
    ensures a + 4096 * pages < U64 && a < U64 - 4096
  {
    FeasibleRoom(ds, pages, a);
  }

  lemma PagesButIs(ds: seq<Descriptor>, pages: nat, from: Address, bad: Address)
    requires from < U64 - 4096 && bad < U64 - 4096
    ensures var next := PageAfter(ds, pages, from, bad);
            PagesBut(ds, pages, from, bad) == if next == NONE then [] else [next] + PagesBut(ds, pages, next, bad)
  {
    hide FirstPage;
    ForwardOn(ds, pages, from);
    ForwardOn(ds, pages, bad);
  }

  lemma PagesButNext(ds: seq<Descriptor>, pages: nat, from: Address, bad: Address, next: Address)
    requires WellFormed(ds) && 0 < pages && from % 4096 == 0 && from + 4096 * pages < U64
    requires PagesBut(ds, pages, from, bad) == [next] + PagesBut(ds, pages, next, bad)
    ensures next % 4096 == 0 && next + 4096 * pages < U64 && next < U64 - 4096
  {
    hide PagesBut, Feasible, WellFormed, Ascending;
    PagesButComplete(ds, pages, from, bad);
    assert next in PagesBut(ds, pages, from, bad);
    FeasibleRoom(ds, pages, next);
  }

  /** Stage three: page after page, from the first section on. */
  method TakePage(fw: Firmware, pages: nat, bad: Address, ghost ds: seq<Descriptor>)
    returns (base: Option<Address>)
    requires fw.Free() && bad < U64 - 4096
    modifies fw
    ensures old(fw.tried) <= fw.tried && old(fw.log) <= fw.log
    ensures fw.refused == old(fw.refused) && (old(fw.cut) ==> fw.cut)
    ensures base.Some? ==> base.value !in {bad, NONE} && fw.Holding(base.value, pages)
    ensures base.None? ==> fw.Free() && fw.log == old(fw.log)
    ensures Charted(old(fw.script), ds, pages) && !fw.cut ==>
      var all := old(fw.tried) + PagesBut(ds, pages, FirstSuiting(ds, pages, 0), bad);
      if base.None? then fw.tried == all
      else Fixed(fw.script, ds) && base.value % 4096 == 0 && Visited(ds, pages, bad, fw.tried, base.value, all)
           && Left(fw.tried, PagesBut(ds, pages, base.value, bad), all)
  {
    hide PagesBut, LedgerOf, GivesBackDirty, Left, FirstSuiting, FirstPage, WellFormed, InPlace, PageAfter, PageStep, PageStepCut;
    var mm := fw.GetMemoryMap();
    var newAddress: Address := ActuallyFreeAddress(mm, pages, 0);
    ghost var charted := Charted(old(fw.script), ds, pages) && !fw.cut;
    ghost var all := old(fw.tried) + PagesBut(ds, pages, FirstSuiting(ds, pages, 0), bad);
    if charted {
      StartInPlace(ds, pages);
      FixedTail(old(fw.script), ds);
      assert old(fw.script)[0] in old(fw.script);
    }
    LeftAll(fw.tried, PagesBut(ds, pages, FirstSuiting(ds, pages, 0), bad));
    var status := NotFound;
    while status != Success
      invariant old(fw.tried) <= fw.tried && old(fw.log) <= fw.log
      invariant fw.refused == old(fw.refused)
      invariant old(fw.cut) || status == OtherError ==> fw.cut
      invariant status == Success ==> newAddress !in {bad, NONE}
      invariant if status == Success then fw.Holding(newAddress, pages) else fw.Free()
      invariant status != Success ==> fw.log == old(fw.log)
      invariant Charted(old(fw.script), ds, pages) && !fw.cut ==> charted
      invariant charted && !fw.cut ==>
        && Fixed(fw.script, ds) && WellFormed(ds) && 0 < pages && newAddress % 4096 == 0
        && InPlace(ds, pages, newAddress) && Left(fw.tried, PagesBut(ds, pages, newAddress, bad), all)
      decreases |fw.script|, if status == OtherError then 0 else 1
    {
      ghost var from := newAddress;
      ghost var before := fw.script;
      if status == NotFound {
        newAddress := NextPage(fw, pages, newAddress, bad);
        NotBad(before, pages, from, bad);
        StepShorter(before, pages, from, bad);
      } else {
        return None;
      }
      if charted && !fw.cut {
        PageStepFixed(before, ds, pages, from, bad);
        Room(ds, pages, from);
        PagesButIs(ds, pages, from, bad);
        PageAfterInPlace(ds, pages, from, bad);
      }
      if newAddress == NONE {
        LeftNone(fw.tried, all);
        return None;
      }
      if charted && !fw.cut {
        PagesButNext(ds, pages, from, bad, newAddress);
        FixedTail(fw.script, ds);
      }
      TryNext(fw.tried, newAddress, PagesBut(ds, pages, newAddress, bad), all);
      status := fw.AllocatePages(pages, newAddress);
    }
    base := Some(newAddress);
  }

  lemma LeftNone(tried: seq<Address>, all: seq<Address>)
    ensures Left(tried, [], all) ==> tried == all
  {
    assert tried + [] == tried;
  }

  lemma StartInPlace(ds: seq<Descriptor>, pages: nat)
    requires WellFormed(ds) && 0 < pages && FirstSuiting(ds, pages, 0) != NONE
    ensures InPlace(ds, pages, FirstSuiting(ds, pages, 0)) && FirstSuiting(ds, pages, 0) % 4096 == 0
  {
    SuitingRoom(ds, pages, 0);
    FeasibleRoom(ds, pages, FirstSuiting(ds, pages, 0));
  }

  lemma NotBad(script: seq<Reply>, pages: nat, from: Address, bad: Address)
    requires bad < U64 - 4096
    ensures PageStep(script, pages, from, bad).0 != bad
  {
    hide FirstPage;
    var mm := MapIn(Tail(script));
    if mm.Some? {
      ForwardOn(mm.value, pages, bad);
    }
  }

  lemma StepShorter(script: seq<Reply>, pages: nat, from: Address, bad: Address)
    ensures |PageStep(script, pages, from, bad).1| <= |script|
  {}

  /** Stage three's inner loop, once a block has been given back: asks for one base
      after another until the firmware answers something else than "not found".
      None: the script runs out first. */
  function Retake(script: seq<Reply>, pages: nat, from: Address, bad: Address): Option<(Status, Address, seq<Reply>)>
    decreases |script|
  {
    var (a, left) := PageStep(script, pages, from, bad);
    if left == [] then None
    else if Answer(left, a, pages) == NotFound then Retake(Tail(left), pages, a, bad)
    else Some((Answer(left, a, pages), a, Tail(left)))
  }

  /** The answers to all requests for which the script lasts. */
  function Answers(script: seq<Reply>, pages: nat, from: Address, bad: Address): seq<Status>
    decreases |script|
  {
    var (a, left) := PageStep(script, pages, from, bad);
    if left == [] then [] else [Answer(left, a, pages)] + Answers(Tail(left), pages, a, bad)
  }

  predicate OnlyNotFound(answers: seq<Status>) {
    forall i | 0 <= i < |answers| :: answers[i] == NotFound
  }

  lemma OnlyNotFoundCons(answer: Status, rest: seq<Status>)
    ensures OnlyNotFound([answer] + rest) <==> answer == NotFound && OnlyNotFound(rest)
  {
    var all := [answer] + rest;
    assert all[0] == answer;
    assert forall i | 0 <= i < |rest| :: all[i + 1] == rest[i];
    assert forall i | 0 < i < |all| :: all[i] == rest[i - 1];
  }

  /** The inner loop ends exactly when some answer is not "not found". */
  lemma {:induction false} RetakeExact(script: seq<Reply>, pages: nat, from: Address, bad: Address)
    ensures Retake(script, pages, from, bad).None? <==> OnlyNotFound(Answers(script, pages, from, bad))
    ensures Retake(script, pages, from, bad).Some? ==> Retake(script, pages, from, bad).value.0 != NotFound
    decreases |script|
  {
    hide PageStep, Answer, OnlyNotFound;
    StepShorter(script, pages, from, bad);
    var (a, left) := PageStep(script, pages, from, bad);
    if left == [] {
      assert OnlyNotFound([]) by { NoAnswers(); }
    } else {
      OnlyNotFoundCons(Answer(left, a, pages), Answers(Tail(left), pages, a, bad));
      RetakeExact(Tail(left), pages, a, bad);
    }
  }

  lemma NoAnswers()
    ensures OnlyNotFound([])
  {}

  /** So a firmware that goes on answering "not found" is asked for ever, on any map,
      also when no base is left: of n replies the loop uses up all, and at least
      every third is a request for a base. */
  lemma {:induction false} NeverGivesUp(script: seq<Reply>, pages: nat, from: Address, bad: Address)
    requires forall r | r in script :: r.status == NotFound
    ensures Retake(script, pages, from, bad).None?
    ensures |script| <= 3 * |Answers(script, pages, from, bad)| + 2
    decreases |script|
  {
    var (a, left) := PageStep(script, pages, from, bad);
    if left != [] {
      assert forall r | r in left :: r in script;
      assert left[0] in script;
      assert forall r | r in Tail(left) :: r in left;
      NeverGivesUp(Tail(left), pages, a, bad);
    }
  }

  /** Past the last base the loop asks for NONE, which is never granted, and goes on
      from there. */
  lemma AsksForNone(script: seq<Reply>, ds: seq<Descriptor>, pages: nat, from: Address, bad: Address)
    requires Fixed(script, ds) && 3 <= |script| && from < U64 - 4096 && bad < U64 - 4096
    requires PagesBut(ds, pages, from, bad) == []
    ensures var (a, left) := PageStep(script, pages, from, bad);
            && a == U64 - 1 && left != [] && Answer(left, a, pages) != Success
            && (Answer(left, a, pages) == NotFound ==> Retake(script, pages, from, bad) == Retake(Tail(left), pages, NONE, bad))
  {
    hide FirstPage;
    PageStepFixed(script, ds, pages, from, bad);
    PagesButIs(ds, pages, from, bad);
  }

  method RetakePage(fw: Firmware, pages: nat, held: Address, bad: Address, ghost ds: seq<Descriptor>, ghost all: seq<Address>)
    returns (status: Status, next: Address)
    requires held !in {bad, NONE} && bad < U64 - 4096 && fw.Free()
    modifies fw
    ensures old(fw.tried) <= fw.tried && old(fw.log) <= fw.log
    ensures match Retake(old(fw.script), pages, held, bad)
            case Some((st, a, left)) => (status, next, fw.script) == (st, a, left)
            case None => status == OtherError && fw.script == []
    ensures fw.refused == old(fw.refused) && |fw.script| <= |old(fw.script)| && status != NotFound
    ensures old(fw.cut) || status == OtherError ==> fw.cut
    ensures if status == Success then next !in {bad, NONE} && fw.Holding(next, pages) else fw.Free()
    ensures Fixed(old(fw.script), ds) && WellFormed(ds) && 0 < pages && Visited(ds, pages, bad, old(fw.tried), held, all) && !fw.cut
      ==> Fixed(fw.script, ds) && Visited(ds, pages, bad, fw.tried, next, all)
  {
    hide GivesBackDirty, LedgerOf, WellFormed, Visited, PageStep, PageStepCut, PageAfter;
    next, status := held, NotFound;
    while status != Success
      invariant old(fw.tried) <= fw.tried && old(fw.log) <= fw.log
      invariant fw.refused == old(fw.refused) && |fw.script| <= |old(fw.script)|
      invariant old(fw.cut) || status == OtherError ==> fw.cut
      invariant status == Success ==> next !in {bad, NONE}
      invariant if status == Success then fw.Holding(next, pages) else fw.Free()
      invariant status == NotFound ==> Retake(fw.script, pages, next, bad) == Retake(old(fw.script), pages, held, bad)
      invariant status != NotFound ==>
        match Retake(old(fw.script), pages, held, bad)
        case Some((st, a, left)) => (status, next, fw.script) == (st, a, left)
        case None => status == OtherError && fw.script == []
      invariant Fixed(old(fw.script), ds) && WellFormed(ds) && 0 < pages && Visited(ds, pages, bad, old(fw.tried), held, all) && !fw.cut
        ==> Fixed(fw.script, ds) && Visited(ds, pages, bad, fw.tried, next, all)
      decreases |fw.script|, if status == OtherError then 0 else 1
    {
      ghost var from, before, tried := next, fw.script, fw.tried;
      if status == NotFound {
        next := NextPage(fw, pages, next, bad);
        NotBad(before, pages, from, bad);
        StepShorter(before, pages, from, bad);
      } else {
        return;
      }
      if held == NONE {
        return;
      }
      if Fixed(before, ds) && WellFormed(ds) && 0 < pages && Visited(ds, pages, bad, tried, from, all) && !fw.cut {
        PageStepFixed(before, ds, pages, from, bad);
        FixedTail(fw.script, ds);
        VisitNext(ds, pages, bad, tried, from, all);
      }
      status := fw.AllocatePages(pages, next);
    }
  }

  /** Stage three, verifying.  The inner loop looks at the block just given back for
      exhaustion, so it never gives up by itself.  Until the firmware cuts it short
      it goes through the bases in order, and what it settles on is feasible. */
  method SettlePage(fw: Firmware, pages: nat, start: Address, bad: Address, ghost ds: seq<Descriptor>, ghost all: seq<Address>)
    returns (base: Option<Address>)
    requires start !in {bad, NONE} && bad < U64 - 4096 && fw.Holding(start, pages) && !fw.refused
    modifies fw
    ensures old(fw.tried) <= fw.tried && old(fw.log) <= fw.log
    ensures base.Some? ==> !fw.refused && base.value != bad && fw.Holding(base.value, pages) && Usable(fw.mem, base.value, pages)
    ensures base.None? ==> if fw.refused then LedgerOf(fw.log).Holds? && GivesBackDirty(fw.log) else fw.Free() && fw.cut
    ensures old(fw.cut) ==> fw.cut
    ensures Fixed(old(fw.script), ds) && WellFormed(ds) && 0 < pages && Visited(ds, pages, bad, old(fw.tried), start, all) && !fw.cut
            && base.Some?
      ==> Visited(ds, pages, bad, fw.tried, base.value, all)
  {
    hide GivesBackDirty, AllZero, HasMagic, WellFormed, Visited, Retake;
    var allocatedMemory := start;
    var dirty := VerifyZeroMem(fw.mem, 4096 * pages, allocatedMemory);
    while dirty
      invariant old(fw.tried) <= fw.tried && old(fw.log) <= fw.log
      invariant allocatedMemory !in {bad, NONE}
      invariant fw.Holding(allocatedMemory, pages) && !fw.refused
      invariant dirty <==> !AllZero(fw.mem, allocatedMemory, 4096 * pages)
      invariant Fixed(old(fw.script), ds) && WellFormed(ds) && 0 < pages && Visited(ds, pages, bad, old(fw.tried), start, all) && !fw.cut
        ==> Fixed(fw.script, ds) && Visited(ds, pages, bad, fw.tried, allocatedMemory, all)
      invariant old(fw.cut) ==> fw.cut
      decreases |fw.script|
    {
      var remains := CompareMagic(fw.mem, allocatedMemory);
      if remains {
        break;
      }
      ghost var before := fw.script;
      var status := fw.FreePages(allocatedMemory, pages);
      if status != Success {
        return None;
      }
      if Fixed(before, ds) {
        FixedTail(before, ds);
      }
      var newAddress;
      status, newAddress := RetakePage(fw, pages, allocatedMemory, bad, ds, all);
      if status != Success {
        return None;
      }
      allocatedMemory := newAddress;
      dirty := VerifyZeroMem(fw.mem, 4096 * pages, allocatedMemory);
    }
    base := Some(allocatedMemory);
  }

  /** After a failure the firmware did not force everything has been tried: the first
      try alone if it was not granted; else every section; and, if any block was taken
      after the first one, every page too. */
  ghost predicate Exhausted(log: seq<Event>, tried: seq<Address>, ds: seq<Descriptor>, pages: nat) {
    if log == [] then tried == [FIRST_TRY]
    else if forall i | 0 < i < |log| :: log[i].Gave? then tried == EverySection(ds, pages)
    else tried == EverySection(ds, pages) + EveryPage(ds, pages)
  }

  /** The whole search.  The first try is kept exactly if it is granted and, cleared,
      found usable.  At every moment at most one block is held; a success
      holds exactly the returned block, zero or an old kernel's, and never the
      rejected first one.  A failure holds nothing unless FreePages failed; on a
      map that does not change, a failure the firmware did not force has tried
      everything.  Before stage three (`thorough`) the calls are bounded by the
      suitable sections, which come in order; stage three has no bound, goes through
      the pages in order and settles on a feasible one. */
  method FindBase(fw: Firmware, pages: nat, ghost ds: seq<Descriptor>)
    returns (base: Option<Address>, ghost thorough: bool)
    requires fw.log == [] && fw.tried == [] && !fw.refused && !fw.cut
    modifies fw
    ensures LedgerOf(fw.log) != Broken && GivesBackDirty(fw.log)
    ensures fw.tried != [] && fw.tried[0] == 1024 * 1024 * 1024
    ensures base.Some? ==> LedgerOf(fw.log) == Holds(Block(base.value, pages)) && Usable(fw.mem, base.value, pages)
    ensures base.Some? ==> Grantable(base.value, pages) && !fw.refused
    ensures base == Some(FIRST_TRY) <==>
      && Answer(old(fw.script), FIRST_TRY, pages) == Success
      && Usable(MemIn(Tail(old(fw.script)), MemIn(old(fw.script), old(fw.mem))), FIRST_TRY, pages)
    ensures base == Some(FIRST_TRY) ==> fw.log == [Took(Block(FIRST_TRY, pages))] && fw.tried == [FIRST_TRY]
    ensures base.None? ==> if fw.refused then LedgerOf(fw.log).Holds? else LedgerOf(fw.log) == Nothing
    ensures base.None? && !fw.refused && !fw.cut && Charted(old(fw.script), ds, pages)
      ==> Exhausted(fw.log, fw.tried, ds, pages)
    ensures base.None? && !fw.refused && !fw.cut && !thorough && fw.log != [] && Fixed(old(fw.script), ds)
      ==> fw.tried == EverySection(ds, pages) && forall i | 0 < i < |fw.log| :: fw.log[i].Gave?
    ensures Fixed(old(fw.script), ds) && !thorough ==> |old(fw.script)| - |fw.script| <= Budget(ds, pages, 0) + 10
    ensures Fixed(old(fw.script), ds) && !thorough && base.Some? && base.value != FIRST_TRY
      ==> Left(fw.tried, Sections(ds, pages, base.value, FIRST_TRY), EverySection(ds, pages))
    ensures Fixed(old(fw.script), ds) && thorough && !fw.cut ==> EverySection(ds, pages) <= fw.tried
    ensures thorough && base.Some? && !fw.cut && Charted(old(fw.script), ds, pages) ==>
      Visited(ds, pages, FIRST_TRY, fw.tried, base.value, EverySection(ds, pages) + EveryPage(ds, pages))
  {
    hide AllZero, HasMagic, Sections, PagesBut, FirstSuiting, Left, WellFormed, CountAbove, Visited, EverySection, EveryPage;
    hide LedgerOf, GivesBackDirty;
    thorough := false;
    var allocatedMemory := FIRST_TRY;
    EmptyLedger(fw.log);
    FixedLater(fw.script, ds);
    var status := fw.AllocatePages(pages, allocatedMemory);
    if status != Success {
      return None, thorough;
    }
    fw.ZeroMem(allocatedMemory, 4096 * pages);
    assert fw.Holding(FIRST_TRY, pages);
    var dirty := VerifyZeroMem(fw.mem, 4096 * pages, allocatedMemory);
    if dirty {
      var remains := CompareMagic(fw.mem, allocatedMemory);
      if !remains {
        status := fw.FreePages(allocatedMemory, pages);
        if status != Success {
          return None, thorough;
        }
        base, thorough := FindAnother(fw, pages, ds);
        return;
      }
    }
    base := Some(allocatedMemory);
  }

  /** The three stages, once the first try has been given back. */
  method FindAnother(fw: Firmware, pages: nat, ghost ds: seq<Descriptor>)
    returns (base: Option<Address>, ghost thorough: bool)
    requires fw.Free() && |fw.log| == 2 && fw.log[1].Gave? && fw.tried == [FIRST_TRY] && !fw.refused
    modifies fw
    ensures old(fw.log) <= fw.log && old(fw.tried) <= fw.tried && (old(fw.cut) ==> fw.cut)
    ensures base.Some? ==> !fw.refused && base.value != FIRST_TRY
    ensures base.Some? ==> fw.Holding(base.value, pages) && Usable(fw.mem, base.value, pages)
    ensures base.None? ==> if fw.refused then LedgerOf(fw.log).Holds? && GivesBackDirty(fw.log) else fw.Free()
    ensures base.None? && !fw.refused && !fw.cut && Charted(old(fw.script), ds, pages)
      ==> Exhausted(fw.log, fw.tried, ds, pages)
    ensures base.None? && !fw.refused && !fw.cut && !thorough && Fixed(old(fw.script), ds)
      ==> fw.tried == EverySection(ds, pages) && forall i | 0 < i < |fw.log| :: fw.log[i].Gave?
    ensures Fixed(old(fw.script), ds) && !thorough ==> |old(fw.script)| - |fw.script| <= Budget(ds, pages, 0) + 7
    ensures Fixed(old(fw.script), ds) && !thorough && base.Some?
      ==> Left(fw.tried, Sections(ds, pages, base.value, FIRST_TRY), EverySection(ds, pages))
    ensures Fixed(old(fw.script), ds) && thorough && !fw.cut ==> EverySection(ds, pages) <= fw.tried
    ensures thorough && base.Some? && !fw.cut && Charted(old(fw.script), ds, pages) ==>
      Visited(ds, pages, FIRST_TRY, fw.tried, base.value, EverySection(ds, pages) + EveryPage(ds, pages))
  {
    hide AllZero, HasMagic, Sections, PagesBut, FirstSuiting, Left, WellFormed, CountAbove, Visited, GivesBackDirty, LedgerOf;
    thorough := false;
    var first := TakeSection(fw, pages, FIRST_TRY, ds);
    if first.None? {
      if Fixed(old(fw.script), ds) && !fw.cut {
        LeftNone(fw.tried, EverySection(ds, pages));
      }
      return None, thorough;
    }
    assert fw.log[2].Took?;
    ghost var triedOne := fw.tried;
    var failed, allocatedMemory := SettleSection(fw, pages, first.value, FIRST_TRY, ds);
    assert fw.log[2].Took?;
    if failed {
      return None, thorough;
    }
    LeftTrans(triedOne, Sections(ds, pages, first.value, FIRST_TRY),
              fw.tried, Rest(ds, pages, Some(allocatedMemory), FIRST_TRY), EverySection(ds, pages));
    if allocatedMemory == NONE {
      LeftNone(fw.tried, EverySection(ds, pages));
      thorough := true;
      var page := TakePage(fw, pages, FIRST_TRY, ds);
      assert fw.log[2].Took?;
      if page.None? {
        return None, thorough;
      }
      base := SettlePage(fw, pages, page.value, FIRST_TRY, ds, EverySection(ds, pages) + EveryPage(ds, pages));
      return;
    }
    base := Some(allocatedMemory);
  }

  lemma EmptyLedger(log: seq<Event>)
    ensures log == [] ==> LedgerOf(log) == Nothing && GivesBackDirty(log)
  {}

  lemma FixedLater(script: seq<Reply>, ds: seq<Descriptor>)
    ensures Fixed(script, ds) ==> Fixed(Tail(script), ds) && Fixed(Tail(Tail(script)), ds) && Fixed(Tail(Tail(Tail(script))), ds)
  {
    if Fixed(script, ds) {
      FixedTail(script, ds);
      FixedTail(Tail(script), ds);
      FixedTail(Tail(Tail(script)), ds);
    }
  }

  /** The pages stage three goes through. */
  ghost function EveryPage(ds: seq<Descriptor>, pages: nat): seq<Address> {
    PagesBut(ds, pages, FirstSuiting(ds, pages, 0), FIRST_TRY)
  }

  /** The first try, address 0 and all sections but the first try's. */
  ghost function EverySection(ds: seq<Descriptor>, pages: nat): seq<Address> {
    [FIRST_TRY] + [0] + Sections(ds, pages, 0, FIRST_TRY)
  }

  // ----------------------------------------------------- what a ledger means

  /** An unbroken ledger is what the two accounts agree on: at the end of the log
      the blocks held are exactly the ledger's one block or none. */
  lemma {:induction false} LedgerHeld(log: seq<Event>)
    requires LedgerOf(log) != Broken
    ensures Held(log) == match LedgerOf(log)
                         case Holds(b) => multiset{b}
                         case _ => multiset{}
  {
    if log != [] {
      LedgerHeld(log[..|log| - 1]);
    }
  }

  /** So a log that ends unbroken never held two blocks, at any moment, and never
      gave back a block it did not hold. */
  lemma {:induction false} OneBlockAtATime(log: seq<Event>, n: nat)
    requires LedgerOf(log) != Broken && n <= |log|
    ensures |Held(log[..n])| <= 1
    ensures n < |log| && log[n].Took? ==> Held(log[..n]) == multiset{}
    ensures n < |log| && log[n].Gave? ==> Held(log[..n]) == multiset{log[n].block}
    decreases |log|
  {
    if n == |log| {
      assert log[..n] == log;
      LedgerHeld(log);
    } else {
      var before := log[..|log| - 1];
      if n < |before| {
        assert before[..n] == log[..n] && before[n] == log[n];
        OneBlockAtATime(before, n);
      } else {
        assert log[..n] == before;
        LedgerHeld(before);
      }
    }
  }
}
