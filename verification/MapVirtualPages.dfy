/** MapVirtualPages itself, run on memory in place, and an input on which it
    damages its own tables. */
module MapVirtualPages {
  import opened Words
  import opened Memory
  import opened Options
  import opened PageTables
  import opened PageMapping
  import opened TablePlan
  import opened MappingProof
  import opened MappingTheorems
  import TableLinking

  /** The 36-bit number of the page that holds `virt`. */
  function PageNumber(virt: nat): nat { virt / 4096 % VPN_LIMIT }

  class PageMapper {
    const cr3: nat        // the root table's address, as read from the register
    var mem: Mem
    var pool: seq<Frame>  // what AllocatePages will return

    constructor (cr3: nat, mem: Mem, pool: seq<Frame>)
      ensures this.cr3 == cr3 && State() == Machine(mem, pool)
    {
      this.cr3, this.mem, this.pool := cr3, mem, pool;
    }

    function State(): Machine
      reads this
    {
      Machine(mem, pool)
    }

    /** AllocatePages for one page; on failure the pointer keeps its value. */
    method AllocatePage(pointer: Frame) returns (frame: Frame)
      modifies this`pool
      ensures frame == if old(pool) == [] then pointer else old(pool)[0]
      ensures pool == if old(pool) == [] then [] else old(pool)[1..]
    {
      frame := pointer;
      if pool != [] {
        frame, pool := pool[0], pool[1..];
      }
    }

    /** Follows entry `index` of `table`, allocating the next table if it is 0. */
    method DescendTo(table: nat, index: nat) returns (next: nat)
      modifies this
      ensures (next, State()) == NextTable(old(State()), table, index)
    {
      next := 0;
      if Load64(mem, table + 8 * index) == 0 {
        var frame := AllocatePage(0);
        next := frame;
        mem := Zero(mem, next, 0x1000);
        mem := Store64(mem, table + 8 * index, next + 0x01 + 0x02);
      } else {
        var entry := Load64(mem, table + 8 * index);
        next := entry - entry % 0x1000;
      }
    }

    method MapVirtualPages(physical: nat, virt: nat, pages: nat, flags: nat)
      requires Mappable(physical, pages, flags)
      modifies this
      ensures State() == MapPages(old(State()), cr3, physical, virt / 4096, pages, flags)
      decreases pages
    {
      hide NextTable, Zero, Store64;
      var pml4i := virt / 0x80_0000_0000 % 0x200;
      var pml3i := virt / 0x4000_0000 % 0x200;
      var pml2i := virt / 0x20_0000 % 0x200;
      var pml1i := virt / 0x1000 % 0x200;
      Shifts(virt);
      var pml3 := DescendTo(cr3, pml4i);
      var pml2 := DescendTo(pml3, pml3i);
      var pml1 := DescendTo(pml2, pml2i);
      ghost var v := virt / 4096;
      ghost var s := State();
      assert (pml1, s) == LeafTable(old(State()), cr3, v);
      hide LeafTable;
      var i := 0;
      while i < pages
        invariant 0 <= i <= pages
        invariant MapLoop(State(), cr3, pml1, physical, v, pages, i, flags)
               == MapLoop(s, cr3, pml1, physical, v, pages, 0, flags)
      {
        ghost var here := State();
        mem := Store64(mem, pml1 + 8 * (pml1i + i), physical + 4096 * i + flags);
        assert State() == here.(mem := Store64(here.mem, pml1 + 8 * (v % 512 + i), physical + 4096 * i + flags));
        if pml1i + i > 511 {
          LaterPage(virt, i);
          MapVirtualPages(physical + 4096 * i, virt + 4096 * i, pages - i, flags);
        }
        i := i + 1;
      }
    }
  }

  /** Only the low 36 bits of a page number count. */
  lemma {:induction false} MapsModulo(s: Machine, cr3: nat, phys: nat, v: nat, h: nat, n: nat, flags: nat)
    requires Mappable(phys, n, flags)
    ensures MapPages(s, cr3, phys, v + VPN_LIMIT * h, n, flags) == MapPages(s, cr3, phys, v, n, flags)
    decreases n, n + 1
  {
    hide MapLoop, NextTable;
    SameIndices(v, h);
    var (pml1, s1) := LeafTable(s, cr3, v);
    LoopModulo(s1, cr3, pml1, phys, v, h, n, 0, flags);
  }

  lemma {:induction false} LoopModulo(s: Machine, cr3: nat, pml1: nat, phys: nat, v: nat, h: nat, n: nat, i: nat, flags: nat)
    requires Mappable(phys, n, flags) && i <= n
    ensures MapLoop(s, cr3, pml1, phys, v + VPN_LIMIT * h, n, i, flags) == MapLoop(s, cr3, pml1, phys, v, n, i, flags)
    decreases n, n - i
  {
    hide MapPages, Store64;
    SameIndices(v, h);
    if i < n {
      var s' := s.(mem := Store64(s.mem, pml1 + 8 * (v % 512 + i), phys + 4096 * i + flags));
      if v % 512 + i > 511 {
        MapsModulo(s', cr3, phys + 4096 * i, v + i, h, n - i, flags);
        LoopModulo(MapPages(s', cr3, phys + 4096 * i, v + i, n - i, flags), cr3, pml1, phys, v, h, n, i + 1, flags);
      } else {
        LoopModulo(s', cr3, pml1, phys, v, h, n, i + 1, flags);
      }
    }
  }

  lemma SameIndices(v: nat, h: nat)
    ensures var p := v + VPN_LIMIT * h;
            && p / 512 / 512 / 512 % 512 == v / 512 / 512 / 512 % 512
            && p / 512 / 512 % 512 == v / 512 / 512 % 512
            && p / 512 % 512 == v / 512 % 512
            && p % 512 == v % 512
  {
    var p := v + VPN_LIMIT * h;
    NextLevel(p, v, 0x800_0000 * h);
    NextLevel(p / 512, v / 512, 0x4_0000 * h);
    NextLevel(p / 512 / 512, v / 512 / 512, 512 * h);
    NextLevel(p / 512 / 512 / 512, v / 512 / 512 / 512, h);
  }

  lemma Shifts(virt: nat)
    ensures virt / 0x20_0000 == virt / 4096 / 512 && virt / 0x4000_0000 == virt / 4096 / 512 / 512
    ensures virt / 0x80_0000_0000 == virt / 4096 / 512 / 512 / 512 && virt / 0x1000 == virt / 4096
  {}

  /** Multiples of 512 do not matter to the index at this level. */
  lemma NextLevel(p: nat, v: nat, c: nat)
    requires p == v + 512 * c
    ensures p % 512 == v % 512 && p / 512 == v / 512 + c
  {}

  lemma LaterPage(virt: nat, i: nat)
    ensures (virt + 4096 * i) / 4096 == virt / 4096 + i
  {}

  // ------------------------------------------------- words past the table

  /** Where the root table, the four frames the firmware hands out (in the order
      f3, f2, f1, f0) and the physical pages to map lie. */
  datatype Layout = Layout(root: nat, f3: Frame, f2: Frame, f1: Frame, f0: Frame, phys: Frame) {
    /** Frames are handed out downwards: f2 lies just behind f1. */
    predicate Downward() {
      && f3 == f2 + 4096 && f2 == f1 + 4096 && f1 == f0 + 4096
      && root % 4096 == 0 && (root + 4096 <= f0 || f3 + 4096 <= root)
      && phys + 8192 <= PHYS_LIMIT && (phys + 8192 <= f0 || f3 <= phys)
      && (phys + 8192 <= root || root <= phys)
    }

    /** No table yet, all of memory 0. */
    function Start(): Machine { Machine(map[], [f3, f2, f1, f0]) }
  }

  lemma EmptyTables(root: nat, l: nat, k: nat)
    requires l < 4 && Key(l, k)
    ensures Table(map[], root, l, k).None? && Link(map[], root, l, k) == 0
    decreases 4 - l
  {
    hide Load64, Present, LargePage;
    ZeroAbsent();
    ParentKey(l, k);
    if l < 3 {
      EmptyTables(root, l + 1, k / 512);
    } else {
      EmptyEntry(root, k % 512);
    }
  }

  lemma EmptyEntry(t: nat, j: nat)
    ensures Entry(map[], t, j) == 0
  {
    LoadLEZero(map[], t + 8 * j, 8);
  }

  lemma StartTree(x: Layout)
    requires x.Downward()
    ensures Tree(x.Start().mem, x.root) && PoolApart(x.Start(), x.root) && Tables(x.Start().mem, x.root) == {}
    ensures forall path :: Passable(x.Start().mem, x.root, path)
  {
    hide Table, Link;
    forall l: nat, k: nat | l < 4 && Key(l, k)
      ensures Table(map[], x.root, l, k).None? && Link(map[], x.root, l, k) == 0
    {
      EmptyTables(x.root, l, k);
    }
    forall f | f in x.Start().pool
      ensures f + 4096 <= x.root || x.root + 4096 <= f
    {
      AlignedApart(f, x.root);
    }
    RootTable(map[], x.root);
  }

  lemma StartStocked(x: Layout)
    requires x.Downward()
    ensures Stocked(x.Start(), x.root, 511, 513)
  {
    hide Tree, PoolApart, Tables, Passable;
    StartTree(x);
    SmallPath();
    SubsetSize(Path(511, 513), {(1, 0), (1, 1), (2, 0), (3, 0)});
    assert {} + Path(511, 513) == Path(511, 513);
  }

  lemma SmallPath()
    ensures Path(511, 513) <= {(1, 0), (1, 1), (2, 0), (3, 0)}
  {}

  /** One store of the run, after clearing a frame if one is taken. */
  datatype WordStore = WordStore(cleared: Option<nat>, address: nat, word: Word)

  function RunEvent(x: Layout, n: nat): WordStore
    requires x.Downward()
  {
    match n
    case 1 => WordStore(Some(x.f3), x.root, x.f3 + 3)
    case 2 => WordStore(Some(x.f2), x.f3, x.f2 + 3)
    case 3 => WordStore(Some(x.f1), x.f2, x.f1 + 3)
    case 4 => WordStore(None, x.f1 + 8 * 511, x.phys + 3)
    case 5 => WordStore(None, x.f1 + 8 * 512, x.phys + 4096 + 3)  // the word past f1
    case 6 => WordStore(Some(x.f0), x.f2 + 8, x.f0 + 3)
    case _ => WordStore(None, x.f0, x.phys + 4096 + 3)
  }

  function Cleared(m: Mem, cleared: Option<nat>): Mem {
    if cleared.None? then m else Zero(m, cleared.value, 4096)
  }

  function Stored(m: Mem, e: WordStore): Mem {
    Store64(Cleared(m, e.cleared), e.address, e.word)
  }

  /** Memory after the first `n` stores. */
  function After(x: Layout, n: nat): Mem
    requires x.Downward()
    decreases n
  {
    if n == 0 then map[] else Stored(After(x, n - 1), RunEvent(x, n))
  }

  /** The word at `a` after the first `n` stores, read off the events. */
  function Expected(x: Layout, n: nat, a: nat): Word
    requires x.Downward()
    decreases n
  {
    if n == 0 then 0
    else
      var e := RunEvent(x, n);
      if e.address == a then e.word
      else if e.cleared.Some? && e.cleared.value <= a < e.cleared.value + 4096 then 0
      else Expected(x, n - 1, a)
  }

  /** The word at `a` meets the event's store and clearing entirely or not at all. */
  predicate Clean(e: WordStore, a: nat) {
    && (a == e.address || a + 8 <= e.address || e.address + 8 <= a)
    && (e.cleared.Some? ==> a + 8 <= e.cleared.value || e.cleared.value + 4096 <= a
                            || e.cleared.value <= a <= e.cleared.value + 4088)
  }

  predicate AllClean(x: Layout, n: nat, a: nat)
    requires x.Downward()
    decreases n
  {
    n == 0 || (Clean(RunEvent(x, n), a) && AllClean(x, n - 1, a))
  }

  lemma StoredWord(m: Mem, e: WordStore, a: nat)
    requires Clean(e, a)
    ensures Load64(Stored(m, e), a)
         == if e.address == a then e.word
            else if e.cleared.Some? && e.cleared.value <= a < e.cleared.value + 4096 then 0
            else Load64(m, a)
  {
    hide Load64, Store64, Zero;
    var m' := Cleared(m, e.cleared);
    if e.address == a {
      Store64Load64(m', a, e.word);
    } else {
      Store64Other(m', e.address, e.word, a);
      if e.cleared.Some? {
        if e.cleared.value <= a < e.cleared.value + 4096 {
          ZeroInside(m, e.cleared.value, 4096, a);
        } else {
          ZeroOther(m, e.cleared.value, 4096, a);
        }
      }
    }
  }

  lemma {:induction false} AfterWord(x: Layout, n: nat, a: nat)
    requires x.Downward() && AllClean(x, n, a)
    ensures Load64(After(x, n), a) == Expected(x, n, a)
    decreases n
  {
    if n == 0 {
      LoadLEZero(map[], a, 8);
    } else {
      hide Load64, Stored, RunEvent;
      AfterWord(x, n - 1, a);
      StoredWord(After(x, n - 1), RunEvent(x, n), a);
    }
  }

  /** The first page: three tables are linked. */
  lemma FirstTables(x: Layout)
    requires x.Downward()
    ensures LeafTable(x.Start(), x.root, 511) == (x.f1, Machine(After(x, 3), [x.f0]))
  {
    hide Load64, Store64, Zero;
    AfterWord(x, 0, x.root);
    AfterWord(x, 1, x.f3);
    AfterWord(x, 2, x.f2);
    assert NextTable(x.Start(), x.root, 0) == (x.f3 as nat, Machine(After(x, 1), [x.f2, x.f1, x.f0]));
    assert NextTable(Machine(After(x, 1), [x.f2, x.f1, x.f0]), x.f3, 0) == (x.f2 as nat, Machine(After(x, 2), [x.f1, x.f0]));
    assert NextTable(Machine(After(x, 2), [x.f1, x.f0]), x.f2, 0) == (x.f1 as nat, Machine(After(x, 3), [x.f0]));
  }

  lemma AfterStep(x: Layout, n: nat)
    requires x.Downward()
    ensures After(x, n + 1) == Stored(After(x, n), RunEvent(x, n + 1))
  {}

  /** The second page: one more level-1 table is linked. */
  lemma SecondTable(x: Layout)
    requires x.Downward()
    ensures LeafTable(Machine(After(x, 5), [x.f0]), x.root, 512) == (x.f0, Machine(After(x, 6), []))
  {
    hide Load64, Store64, Zero, After, FrameOf;
    var s := Machine(After(x, 5), [x.f0]);
    TableLinking.FreshLink(x.f3);
    TableLinking.FreshLink(x.f2);
    assert After(x, 6) == Stored(After(x, 5), RunEvent(x, 6)) by { AfterStep(x, 5); }
    AfterWord(x, 5, x.root);
    AfterWord(x, 5, x.f3);
    AfterWord(x, 5, x.f2 + 8);
    assert NextTable(s, x.root, 0) == (x.f3 as nat, s);
    assert NextTable(s, x.f3, 0) == (x.f2 as nat, s);
    assert NextTable(s, x.f2, 1) == (x.f0 as nat, Machine(After(x, 6), []));
  }

  lemma RunIs(x: Layout)
    requires x.Downward()
    ensures MapPages(x.Start(), x.root, x.phys, 511, 2, 3) == Machine(After(x, 7), [])
  {
    hide Load64, Store64, Zero, LeafTable;
    FirstTables(x);
    SecondTable(x);
    var s3, s4, s5 := Machine(After(x, 3), [x.f0]), Machine(After(x, 4), [x.f0]), Machine(After(x, 5), [x.f0]);
    var s7 := Machine(After(x, 7), []);
    assert MapPages(s5, x.root, x.phys + 4096, 512, 1, 3) == s7;
    assert MapLoop(s4, x.root, x.f1, x.phys, 511, 2, 1, 3) == s7;
    assert MapLoop(s3, x.root, x.f1, x.phys, 511, 2, 0, 3) == s7;
  }

  /** Stores past a table do harm in practice: when the firmware hands out frames
      downwards, the level-2 table lies just behind the level-1 table, and mapping
      pages 511 and 512 overwrites its first entry.  Page 511 ends up unmapped. */
  lemma SpillCorrupts(x: Layout)
    requires x.Downward()
    ensures var s := x.Start();
            && Stocked(s, x.root, 511, 513) && !Harmless(s, x.root, 511, 513)
            && Walk(MapPages(s, x.root, x.phys, 511, 2, 3).mem, x.root, 4, 511 * 4096) == None
  {
    hide Load64, Table, MapPages, Stocked, After, Harmless, Walk;
    var s := x.Start();
    StartStocked(x);
    RunIs(x);
    LostPage(x);
    if Harmless(s, x.root, 511, 513) {
      MapTranslates(s, x.root, x.phys, 511, 2, 3);
    }
  }

  lemma FinalWords(x: Layout)
    requires x.Downward()
    ensures var m := After(x, 7);
            && Load64(m, x.root) == x.f3 + 3 && Load64(m, x.f3) == x.f2 + 3
            && Load64(m, x.f2) == x.phys + 4096 + 3 && Load64(m, x.phys + 4096 + 8 * 511) == 0
  {
    hide Load64, After;
    AfterWord(x, 7, x.root);
    AfterWord(x, 7, x.f3);
    AfterWord(x, 7, x.f2);
    AfterWord(x, 7, x.phys + 4096 + 8 * 511);
  }

  lemma LostPage(x: Layout)
    requires x.Downward()
    ensures Walk(After(x, 7), x.root, 4, 511 * 4096) == None
  {
    hide Load64, After, PageBase, Present, LargePage;
    FinalWords(x);
    LinkTarget(x.f3);
    LinkTarget(x.f2);
    LinkTarget(x.phys + 4096);
    ZeroAbsent();
    var m := After(x, 7);
    IndicesOf511();
    hide Index;
    assert Walk(m, x.phys + 4096, 1, 511 * 4096) == None;
    assert Walk(m, x.f2, 2, 511 * 4096) == None;
    assert Walk(m, x.f3, 3, 511 * 4096) == None;
  }

  lemma IndicesOf511()
    ensures Index(511 * 4096, 1) == 511
    ensures Index(511 * 4096, 2) == Index(511 * 4096, 3) == Index(511 * 4096, 4) == 0
  {}

  lemma LinkTarget(f: nat)
    requires f % 4096 == 0 && f < PHYS_LIMIT
    ensures f + 3 < PHYS_LIMIT && PageBase(f + 3) == f && Present(f + 3) && !LargePage(f + 3)
  {
    TableLinking.FreshLink(f);
    TableEntryTarget(f + 3);
  }
}
