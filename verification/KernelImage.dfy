/** End to end: what the kernel reads at its virtual addresses after the loader
    has read the segments and mapped the pages. */
module KernelImage {
  import opened Words
  import opened Memory
  import opened Options
  import opened PageTables
  import opened PageMapping
  import opened TablePlan
  import opened MappingProof
  import opened MappingTheorems
  import opened MapVirtualPages
  import opened ElfLoader

  /** The flags the loader maps with: present and writable. */
  const FLAGS: nat := 3

  /** The `pages` pages from header 0's address, whatever its type, cover every
      loadable segment. */
  ghost predicate Extent(phdrs: seq<Phdr>, pages: nat)
    requires 0 < |phdrs|
  {
    forall i | 0 <= i < |phdrs| && phdrs[i].Load() ::
      && phdrs[0].vaddr <= phdrs[i].vaddr
      && phdrs[i].vaddr + phdrs[i].memsz <= phdrs[0].vaddr + 4096 * pages
  }

  /** The block at `base` is disjoint from every table, free frame and word that
      mapping the image may store past a table. */
  ghost predicate BlockFree(s: Machine, cr3: nat, base: nat, v: nat, pages: nat) {
    var plan := LinkAll(s, cr3, v, v + pages).mem;
    forall x: nat | base <= x < base + 4096 * pages :: OffFrames(s, cr3, x) && OffStores(plan, cr3, v, v + pages, x)
  }

  /** Within one level-1 table nothing is stored past a table. */
  lemma OneTableOffStores(plan: Mem, cr3: nat, v: nat, end: nat, x: nat)
    requires end <= 512 * (v / 512) + 512
    ensures OffStores(plan, cr3, v, end, x)
  {
    hide Table, Key;
    forall k: nat | v / 512 <= k
      ensures end - 512 * k <= 512
    {
    }
  }

  /** For an image within one level-1 table only the frames matter. */
  lemma BlockFreeExact(s: Machine, cr3: nat, base: nat, v: nat, pages: nat)
    requires v % 512 + pages <= 512
    ensures BlockFree(s, cr3, base, v, pages)
       <==> forall x: nat | base <= x < base + 4096 * pages :: OffFrames(s, cr3, x)
  {
    hide OffFrames, LinkAll, OffStores;
    ghost var plan, end := LinkAll(s, cr3, v, v + pages).mem, v + pages;
    forall x: nat
      ensures OffStores(plan, cr3, v, end, x)
    {
      OneTableOffStores(plan, cr3, v, end, x);
    }
  }

  function LoadAndMap(s: Machine, cr3: nat, phdrs: seq<Phdr>, file: seq<Byte>, base: Word, pages: nat): Machine
    requires 0 < |phdrs| && Mappable(base, pages, FLAGS)
  {
    MapPages(LoadedMachine(s, phdrs, file, base), cr3, base, phdrs[0].vaddr / 4096, pages, FLAGS)
  }

  ghost predicate Bootable(s: Machine, cr3: nat, phdrs: seq<Phdr>, file: seq<Byte>, base: Word, pages: nat) {
    && WellLaid(phdrs, file) && Extent(phdrs, pages)
    && Mappable(base, pages, FLAGS)
    && var v := PageNumber(phdrs[0].vaddr);
       Stocked(s, cr3, v, v + pages) && Harmless(s, cr3, v, v + pages) && BlockFree(s, cr3, base, v, pages)
  }

  lemma SegmentsInBlock(phdrs: seq<Phdr>, file: seq<Byte>, base: Word, pages: nat)
    requires WellLaid(phdrs, file) && Extent(phdrs, pages) && base + 4096 * pages <= PHYS_LIMIT
    ensures Placed(phdrs, base)
    ensures forall i | 0 <= i < |phdrs| && phdrs[i].Load() ::
      && Place(base, phdrs[0], phdrs[i]) == base + (phdrs[i].vaddr - phdrs[0].vaddr)
      && Inside(base, pages, phdrs[0], phdrs[i])
  {
    hide Place, Disjoint;
    forall i | 0 <= i < |phdrs| && phdrs[i].Load()
      ensures Place(base, phdrs[0], phdrs[i]) == base + (phdrs[i].vaddr - phdrs[0].vaddr)
    {
      PlaceFrom(base, phdrs[0], phdrs[i], phdrs[0].vaddr);
      MinusSelf(phdrs[0].vaddr);
    }
  }

  /** Loading writes only inside the block. */
  lemma LoadingKeeps(m: Mem, phdrs: seq<Phdr>, file: seq<Byte>, base: Word, pages: nat, x: nat)
    requires WellLaid(phdrs, file) && Extent(phdrs, pages) && base + 4096 * pages <= PHYS_LIMIT
    requires x < base || base + 4096 * pages <= x
    ensures LoadByte(Loaded(m, phdrs, file, base, |phdrs|), x) == LoadByte(m, x)
  {
    SegmentsInBlock(phdrs, file, base, pages);
    LoadedElsewhere(m, phdrs, file, base, |phdrs|, x);
  }

  /** Memory that differs only inside a block free of tables has the same tables. */
  lemma BlockOffTables(s: Machine, m': Mem, cr3: nat, base: nat, v: nat, pages: nat)
    requires BlockFree(s, cr3, base, v, pages)
    requires forall x: nat | x < base || base + 4096 * pages <= x :: LoadByte(m', x) == LoadByte(s.mem, x)
    ensures Agree(s, s.(mem := m'), cr3) && SameLeaves(s.mem, m', cr3)
  {
    hide Load64, Table, Key, BlockFree, LoadByte, Large, Link;
    forall l: nat, k: nat, j: nat | Key(l, k) && Table(s.mem, cr3, l, k).Some? && j < 512
      ensures Entry(m', Table(s.mem, cr3, l, k).value, j) == Entry(s.mem, Table(s.mem, cr3, l, k).value, j)
    {
      EntryOutside(s, m', cr3, base, v, pages, Table(s.mem, cr3, l, k).value, l, k, j);
    }
    SameTree(s.mem, m', cr3);
    SameLarge(s.mem, m', cr3);
    forall u: nat | u < VPN_LIMIT
      ensures Leaf(m', cr3, u) == Leaf(s.mem, cr3, u)
    {
      SamePage(u, u);
    }
  }

  lemma EntryOutside(s: Machine, m': Mem, cr3: nat, base: nat, v: nat, pages: nat, t: nat, l: nat, k: nat, j: nat)
    requires Key(l, k) && Table(s.mem, cr3, l, k) == Some(t) && j < 512
    requires BlockFree(s, cr3, base, v, pages)
    requires forall x: nat | x < base || base + 4096 * pages <= x :: LoadByte(m', x) == LoadByte(s.mem, x)
    ensures Entry(m', t, j) == Entry(s.mem, t, j)
  {
    hide Table, Key, LoadByte, BlockFree;
    assert TableFrame(s, cr3, t);
    forall x: nat | t + 8 * j <= x < t + 8 * j + 8
      ensures LoadByte(m', x) == LoadByte(s.mem, x)
    {
      TableOffBlock(s, cr3, base, v, pages, t, x);
    }
    LoadLECongruent(m', s.mem, t + 8 * j, 8);
  }

  lemma TableOffBlock(s: Machine, cr3: nat, base: nat, v: nat, pages: nat, g: nat, x: nat)
    requires BlockFree(s, cr3, base, v, pages) && TableFrame(s, cr3, g)
    ensures g <= x < g + 4096 ==> x < base || base + 4096 * pages <= x
  {
    hide TableFrame, LinkAll, OffStores;
    if base <= x < base + 4096 * pages {
      assert OffFrames(s, cr3, x);
    }
  }

  /** The machine whose pages are mapped: the image is in its block. */
  function LoadedMachine(s: Machine, phdrs: seq<Phdr>, file: seq<Byte>, base: Word): Machine {
    s.(mem := Loaded(s.mem, phdrs, file, base, |phdrs|))
  }

  /** Loading the image leaves everything the mapper needs as it was. */
  lemma LoadingReady(s: Machine, cr3: nat, phdrs: seq<Phdr>, file: seq<Byte>, base: Word, pages: nat)
    requires Bootable(s, cr3, phdrs, file, base, pages)
    ensures var s1, v := LoadedMachine(s, phdrs, file, base), PageNumber(phdrs[0].vaddr);
            && Agree(s, s1, cr3) && SameLeaves(s.mem, s1.mem, cr3)
            && Stocked(s1, cr3, v, v + pages) && Harmless(s1, cr3, v, v + pages) && v + pages <= VPN_LIMIT
  {
    hide Stocked, Harmless, BlockFree, Loaded, PageNumber, SameUpper, SameLeaves;
    var s1, v := LoadedMachine(s, phdrs, file, base), PageNumber(phdrs[0].vaddr);
    forall x: nat | x < base || base + 4096 * pages <= x
      ensures LoadByte(s1.mem, x) == LoadByte(s.mem, x)
    {
      LoadingKeeps(s.mem, phdrs, file, base, pages, x);
    }
    BlockOffTables(s, s1.mem, cr3, base, v, pages);
    AgreeStocked(s, s1, cr3, v, v + pages);
    HarmlessAgrees(s, s1, cr3, v, v + pages);
    StockedTree(s, cr3, v, v + pages);
  }

  /** The address, in the 48 bits that are translated, of byte `d` of the image. */
  function Virtual(phdrs: seq<Phdr>, d: nat): nat
    requires 0 < |phdrs|
  {
    (phdrs[0].vaddr + d) % 0x1_0000_0000_0000
  }

  /** The walk takes byte `d` of the image to byte `d` of the block exactly when
      header 0 starts on a page boundary. */
  lemma AlignmentExact(s: Machine, cr3: nat, phdrs: seq<Phdr>, file: seq<Byte>, base: Word, pages: nat, d: nat)
    requires Bootable(s, cr3, phdrs, file, base, pages)
    requires d + phdrs[0].vaddr % 4096 < 4096 * pages
    ensures Walk(LoadAndMap(s, cr3, phdrs, file, base, pages).mem, cr3, 4, Virtual(phdrs, d))
         == Some(base + d + phdrs[0].vaddr % 4096)
    ensures Walk(LoadAndMap(s, cr3, phdrs, file, base, pages).mem, cr3, 4, Virtual(phdrs, d)) == Some(base + d)
       <==> phdrs[0].vaddr % 4096 == 0
  {
    hide Stocked, Harmless, BlockFree, Walk, MapPages, Loaded, Tree, PageNumber, Virtual;
    LoadingReady(s, cr3, phdrs, file, base, pages);
    MapTranslates(LoadedMachine(s, phdrs, file, base), cr3, base, PageNumber(phdrs[0].vaddr), pages, FLAGS);
    MapsAt(LoadedMachine(s, phdrs, file, base), cr3, base, phdrs[0].vaddr, pages);
    VirtualOffset(phdrs, pages, d);
  }

  /** Page `i` of the image gets the entry of page `i` of the block, present, writable
      and the kernel's own. */
  lemma ImageEntries(s: Machine, cr3: nat, phdrs: seq<Phdr>, file: seq<Byte>, base: Word, pages: nat, i: nat)
    requires Bootable(s, cr3, phdrs, file, base, pages) && i < pages
    ensures Leaf(LoadAndMap(s, cr3, phdrs, file, base, pages).mem, cr3, PageNumber(phdrs[0].vaddr) + i) == base + 4096 * i + 3
  {
    hide Stocked, Harmless, BlockFree, Leaf, MapPages, Loaded, Tree, PageNumber, LargeKept, SameLeaves;
    LoadingReady(s, cr3, phdrs, file, base, pages);
    MapLeaves(LoadedMachine(s, phdrs, file, base), cr3, base, PageNumber(phdrs[0].vaddr), pages, FLAGS);
    MapsAt(LoadedMachine(s, phdrs, file, base), cr3, base, phdrs[0].vaddr, pages);
  }

  /** The image may be written wherever the entries that were there before let it. */
  lemma ImageWrites(s: Machine, cr3: nat, phdrs: seq<Phdr>, file: seq<Byte>, base: Word, pages: nat, d: nat)
    requires Bootable(s, cr3, phdrs, file, base, pages)
    requires d + phdrs[0].vaddr % 4096 < 4096 * pages
    ensures WalkWrites(LoadAndMap(s, cr3, phdrs, file, base, pages).mem, cr3, 4, Virtual(phdrs, d))
       <==> PathWrites(s.mem, cr3, Virtual(phdrs, d) / 4096)
  {
    hide Stocked, Harmless, BlockFree, WalkWrites, MapPages, Loaded, Tree, PageNumber, Virtual, Link;
    var s1 := LoadedMachine(s, phdrs, file, base);
    LoadingReady(s, cr3, phdrs, file, base, pages);
    MapWrites(s1, cr3, base, PageNumber(phdrs[0].vaddr), pages, FLAGS);
    MapsAt(s1, cr3, base, phdrs[0].vaddr, pages);
    VirtualOffset(phdrs, pages, d);
    SameTree(s.mem, s1.mem, cr3);
    PathKeys(Virtual(phdrs, d) / 4096);
    assert PathWrites(s1.mem, cr3, Virtual(phdrs, d) / 4096) <==> PathWrites(s.mem, cr3, Virtual(phdrs, d) / 4096) by {
      SamePathWrites(s.mem, s1.mem, cr3, Virtual(phdrs, d) / 4096);
    }
  }

  lemma SamePathWrites(m: Mem, m': Mem, cr3: nat, u: nat)
    requires u < VPN_LIMIT && forall l: nat, k: nat | l < 4 && Key(l, k) :: Link(m', cr3, l, k) == Link(m, cr3, l, k)
    ensures PathWrites(m', cr3, u) <==> PathWrites(m, cr3, u)
  {
    hide Link;
    PathKeys(u);
    assert forall l | 1 <= l <= 3 :: Key(l, Prefix(u, l));
  }

  /** Only the 48 bits that are translated count. */
  lemma MapsAt(s: Machine, cr3: nat, base: Word, a: nat, pages: nat)
    requires Mappable(base, pages, FLAGS)
    ensures MapPages(s, cr3, base, a / 4096, pages, FLAGS) == MapPages(s, cr3, base, PageNumber(a), pages, FLAGS)
  {
    hide MapPages;
    MapsModulo(s, cr3, base, PageNumber(a), a / 4096 / VPN_LIMIT, pages, FLAGS);
  }

  lemma VirtualOffset(phdrs: seq<Phdr>, pages: nat, d: nat)
    requires 0 < |phdrs| && d + phdrs[0].vaddr % 4096 < 4096 * pages
    requires PageNumber(phdrs[0].vaddr) + pages <= VPN_LIMIT
    ensures var v := PageNumber(phdrs[0].vaddr);
            var va := Virtual(phdrs, d);
            && va < 0x1_0000_0000_0000
            && v <= va / 4096 < v + pages
            && va - 4096 * v == d + phdrs[0].vaddr % 4096
  {
    hide PageNumber, Virtual;
    var a := phdrs[0].vaddr;
    LowAddress(a);
    var low := 4096 * PageNumber(a) + a % 4096;
    assert low + d < 4096 * (PageNumber(a) + pages) <= 0x1_0000_0000_0000;
    VirtualIs(phdrs, d, a / 0x1_0000_0000_0000, low);
    PageOf(PageNumber(a), d + a % 4096);
  }

  lemma LowAddress(a: nat)
    ensures a == (4096 * PageNumber(a) + a % 4096) + (a / 0x1_0000_0000_0000) * 0x1_0000_0000_0000
  {
    var q := a / 4096;
    assert q == PageNumber(a) + VPN_LIMIT * (q / VPN_LIMIT);
  }

  lemma VirtualIs(phdrs: seq<Phdr>, d: nat, h: nat, low: nat)
    requires 0 < |phdrs| && phdrs[0].vaddr == low + h * 0x1_0000_0000_0000 && low + d < 0x1_0000_0000_0000
    ensures Virtual(phdrs, d) == low + d
  {}

  lemma PageOf(v: nat, d: nat)
    ensures v <= (4096 * v + d) / 4096 && forall n: nat | d < 4096 * n :: (4096 * v + d) / 4096 < v + n
  {}

  /** Every byte of every loadable segment: the walk from its virtual address ends
      at a byte holding the file's byte, or, past the file's bytes, whatever the
      block held before loading; in a block that was verified zero, that is 0. */
  lemma VirtualReadsFile(s: Machine, cr3: nat, phdrs: seq<Phdr>, file: seq<Byte>, base: Word, pages: nat, k: nat, o: nat)
    requires Bootable(s, cr3, phdrs, file, base, pages) && phdrs[0].vaddr % 4096 == 0
    requires k < |phdrs| && phdrs[k].Load() && o < phdrs[k].memsz
    ensures phdrs[0].vaddr <= phdrs[k].vaddr && phdrs[k].offset + phdrs[k].filesz <= |file|
    ensures var d := phdrs[k].vaddr + o - phdrs[0].vaddr;
            var s' := LoadAndMap(s, cr3, phdrs, file, base, pages);
            && Walk(s'.mem, cr3, 4, (phdrs[k].vaddr + o) % 0x1_0000_0000_0000) == Some(base + d)
            && LoadByte(s'.mem, base + d)
            == if o < phdrs[k].filesz then file[phdrs[k].offset + o] else LoadByte(s.mem, base + d)
  {
    hide Stocked, Harmless, BlockFree, Walk, MapPages, Loaded, PageNumber, LoadByte;
    assert Sound(phdrs[k], file);
    var d := phdrs[k].vaddr + o - phdrs[0].vaddr;
    AlignmentExact(s, cr3, phdrs, file, base, pages, d);
    SegmentsInBlock(phdrs, file, base, pages);
    LoadedSegment(s.mem, phdrs, file, base, |phdrs|, k, o);
    MappingKeepsImage(s, cr3, phdrs, file, base, pages, base + d);
  }

  /** Mapping leaves the loaded block alone. */
  lemma MappingKeepsImage(s: Machine, cr3: nat, phdrs: seq<Phdr>, file: seq<Byte>, base: Word, pages: nat, x: nat)
    requires Bootable(s, cr3, phdrs, file, base, pages)
    requires base <= x < base + 4096 * pages
    ensures LoadByte(LoadAndMap(s, cr3, phdrs, file, base, pages).mem, x)
         == LoadByte(Loaded(s.mem, phdrs, file, base, |phdrs|), x)
  {
    hide Stocked, Harmless, MapPages, Loaded, PageNumber, LoadByte, LinkAll, OffStores, TableFrame, SameUpper;
    var s1, v := LoadedMachine(s, phdrs, file, base), PageNumber(phdrs[0].vaddr);
    LoadingReady(s, cr3, phdrs, file, base, pages);
    assert OffFrames(s, cr3, x) && OffStores(LinkAll(s, cr3, v, v + pages).mem, cr3, v, v + pages, x);
    AgreeFrames(s, s1, cr3);
    LinkAllAgrees(s, s1, cr3, v, v + pages);
    OffStoresAgrees(LinkAll(s, cr3, v, v + pages).mem, LinkAll(s1, cr3, v, v + pages).mem, cr3, v, v + pages, x);
    MapKeepsBytes(s1, cr3, base, v, pages, FLAGS, x);
    MapsAt(s1, cr3, base, phdrs[0].vaddr, pages);
  }

  /** From what the sizing loop computes: the pages from header 0's address cover
      the segments exactly when they begin no later and end no earlier. */
  lemma ExtentExact(phdrs: seq<Phdr>, file: seq<Byte>, virtSize: Word, virtMin: Word, pages: nat)
    requires WellLaid(phdrs, file) && exists i :: 0 <= i < |phdrs| && phdrs[i].Load()
    requires IsUpper(phdrs, |phdrs|, virtSize) && IsLower(phdrs, |phdrs|, virtMin)
    ensures Extent(phdrs, pages) <==> phdrs[0].vaddr <= virtMin && virtSize <= phdrs[0].vaddr + 4096 * pages
  {
    hide Disjoint, Phdr.End;
    Ends(phdrs, file, virtSize, virtMin);
    forall i | 0 <= i < |phdrs| && phdrs[i].Load()
      ensures virtMin <= phdrs[i].vaddr && phdrs[i].vaddr + phdrs[i].memsz == phdrs[i].End() <= virtSize
    {
      EndIs(phdrs[i], file);
    }
  }
}
