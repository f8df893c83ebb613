/** What MapVirtualPages promises, said of the processor's own walk. */
module MappingTheorems {
  import opened Memory
  import opened Options
  import opened PageTables
  import opened TableLinking
  import opened PageMapping
  import opened TablePlan
  import opened MappingProof

  /** A range crossing any number of page tables is mapped page for page, every
      other address keeps its translation, and the tables still form a tree; this
      also where words past a table do land in other tables without harm. */
  lemma MapTranslates(s: Machine, cr3: nat, phys: nat, v: nat, n: nat, flags: nat)
    requires Mappable(phys, n, flags) && Stocked(s, cr3, v, v + n) && Harmless(s, cr3, v, v + n)
    ensures var s' := MapPages(s, cr3, phys, v, n, flags);
            && Tree(s'.mem, cr3)
            && forall va: nat | va < 0x1_0000_0000_0000 ::
              Walk(s'.mem, cr3, 4, va) ==
                if v <= va / 4096 < v + n
                then if flags % 2 == 1 then Some(phys + (va - 4096 * v)) else None
                else Walk(s.mem, cr3, 4, va)
  {
    hide Table, Key, Stocked, MapPages, Leaf, Large, Walk, Unshared, Harmless;
    var s' := MapPages(s, cr3, phys, v, n, flags);
    MapLeaves(s, cr3, phys, v, n, flags);
    forall va: nat | va < 0x1_0000_0000_0000
      ensures Walk(s'.mem, cr3, 4, va)
           == if v <= va / 4096 < v + n
              then if flags % 2 == 1 then Some(phys + (va - 4096 * v)) else None
              else Walk(s.mem, cr3, 4, va)
    {
      WalkLeaf(s.mem, cr3, va);
      WalkLeaf(s'.mem, cr3, va);
      if v <= va / 4096 < v + n {
        LeafTarget(phys + 4096 * (va / 4096 - v), flags);
      }
    }
  }

  lemma LeafTarget(base: nat, flags: nat)
    requires base % 4096 == 0 && base < PHYS_LIMIT && flags < 4096
    ensures PageBase(base + flags) == base && Present(base + flags) == (flags % 2 == 1)
    ensures Writes(base + flags) == (flags / 2 % 2 == 1)
  {
    var q := base / 4096;
    LowBits(q, flags);
    assert base + flags < PHYS_LIMIT;
  }

  lemma LowBits(q: nat, flags: nat)
    requires flags < 4096
    ensures (4096 * q + flags) / 4096 == q
    ensures (4096 * q + flags) % 2 == flags % 2 && (4096 * q + flags) / 2 % 2 == flags / 2 % 2
  {}

  lemma MapLeaves(s: Machine, cr3: nat, phys: nat, v: nat, n: nat, flags: nat)
    requires Mappable(phys, n, flags) && Stocked(s, cr3, v, v + n) && Harmless(s, cr3, v, v + n)
    ensures var s' := MapPages(s, cr3, phys, v, n, flags);
            && Tree(s.mem, cr3) && Tree(s'.mem, cr3) && Mapped(s.mem, s'.mem, cr3, phys, v, v + n, flags)
            && LargeKept(s.mem, s'.mem, cr3, v, v + n)
  {
    hide Table, Key, LinkAll, LeafTable, Harmless, Tidy, PoolApart, Tables, Path, Unshared, SameUpper, Leaf, SameBytes;
    if n == 0 {
      LeafTableStep(s, cr3, v, v);
    } else {
      var r := LinkAll(s, cr3, v, v + n);
      HarmlessMaps(s, cr3, phys, v, n, flags);
      PlanIs(s, cr3, v, v + n);
      PlanAligned(r, cr3, v, v + n);
      AgreeApart(r, MapPages(s, cr3, phys, v, n, flags), cr3);
      SameTree(r.mem, MapPages(s, cr3, phys, v, n, flags).mem, cr3);
      SameLarge(r.mem, MapPages(s, cr3, phys, v, n, flags).mem, cr3);
      PlanSmall(r, cr3, v, v + n);
    }
  }

  // ------------------------------------------------------------ write access

  /** Every entry on the path of page `u` is empty or lets it be written. */
  ghost predicate PathWrites(m: Mem, cr3: nat, u: nat) {
    forall l | 1 <= l <= 3 :: Link(m, cr3, l, Prefix(u, l)) == 0 || Writes(Link(m, cr3, l, Prefix(u, l)))
  }

  /** A page of the range may be written exactly when the flags say so and so do the
      entries above it that were there before; for all other addresses nothing
      changes. */
  lemma MapWrites(s: Machine, cr3: nat, phys: nat, v: nat, n: nat, flags: nat)
    requires Mappable(phys, n, flags) && 0 < n && Stocked(s, cr3, v, v + n) && Harmless(s, cr3, v, v + n)
    ensures var m' := MapPages(s, cr3, phys, v, n, flags).mem;
            forall va: nat | va < 0x1_0000_0000_0000 ::
              WalkWrites(m', cr3, 4, va) <==>
                if v <= va / 4096 < v + n
                then flags % 2 == 1 && flags / 2 % 2 == 1 && PathWrites(s.mem, cr3, va / 4096)
                else WalkWrites(s.mem, cr3, 4, va)
  {
    hide Table, Key, Stocked, MapPages, Leaf, Large, Link, WalkWrites, PathWrites, Harmless, Tree, LinksKept, Served;
    var m' := MapPages(s, cr3, phys, v, n, flags).mem;
    MapLeaves(s, cr3, phys, v, n, flags);
    MapLinks(s, cr3, phys, v, n, flags);
    forall va: nat | va < 0x1_0000_0000_0000
      ensures WalkWrites(m', cr3, 4, va) <==>
                if v <= va / 4096 < v + n
                then flags % 2 == 1 && flags / 2 % 2 == 1 && PathWrites(s.mem, cr3, va / 4096)
                else WalkWrites(s.mem, cr3, 4, va)
    {
      var u := va / 4096;
      if v <= u < v + n {
        ServedTable(m', cr3, v, v + n, u);
        RangeWrites(s.mem, m', cr3, va);
        LeafTarget(phys + 4096 * (u - v), flags);
      } else {
        OtherWrites(s.mem, m', cr3, va);
      }
    }
  }

  lemma ServedTable(m: Mem, cr3: nat, lo: nat, end: nat, u: nat)
    requires Served(m, cr3, lo, end) && lo <= u < end
    ensures Table(m, cr3, 1, u / 512).Some?
  {
    hide Table;
  }

  lemma MapLinks(s: Machine, cr3: nat, phys: nat, v: nat, n: nat, flags: nat)
    requires Mappable(phys, n, flags) && 0 < n && Stocked(s, cr3, v, v + n) && Harmless(s, cr3, v, v + n)
    ensures var m' := MapPages(s, cr3, phys, v, n, flags).mem;
            LinksKept(s.mem, m', cr3) && Served(m', cr3, v, v + n)
  {
    hide Table, Key, Link, LinkAll, Stocked, Harmless, Tidy, Path, MapPages, Tables, SameUpper, Mapped, SameBytes, SameLeaves;
    var r, s' := LinkAll(s, cr3, v, v + n), MapPages(s, cr3, phys, v, n, flags);
    HarmlessMaps(s, cr3, phys, v, n, flags);
    LinkAllLinks(s, cr3, v, v + n);
    StageRange(s, cr3, v, v + n);
    SameTree(r.mem, s'.mem, cr3);
    AgreeServed(r, s', cr3, v, v + n);
  }

  /** A page with a level-1 table: its links were there or came to be writable. */
  lemma RangeWrites(m: Mem, m': Mem, cr3: nat, va: nat)
    requires va < 0x1_0000_0000_0000 && LinksKept(m, m', cr3) && Table(m', cr3, 1, va / 4096 / 512).Some?
    ensures var e := Leaf(m', cr3, va / 4096);
            WalkWrites(m', cr3, 4, va) <==> PathWrites(m, cr3, va / 4096) && Present(e) && Writes(e)
  {
    hide Leaf, Table, WalkWrites, Present, LargePage, Writes, TableEntry, Link;
    var u := va / 4096;
    var k1, k2, k3 := u / 512, u / 512 / 512, u / 512 / 512 / 512;
    WritesPath(m', cr3, va);
    PathKeys(u);
    UpperSome(m', cr3, k1);
    UpperSome(m', cr3, k2);
    TableOfLink(m', cr3, 1, k1);
    TableOfLink(m', cr3, 2, k2);
    TableOfLink(m', cr3, 3, k3);
    ZeroAbsent();
    assert k1 == Prefix(u, 1) && k2 == Prefix(u, 2) && k3 == Prefix(u, 3);
  }

  /** A page whose entry and large page are as they were. */
  lemma OtherWrites(m: Mem, m': Mem, cr3: nat, va: nat)
    requires va < 0x1_0000_0000_0000 && LinksKept(m, m', cr3)
    requires Leaf(m', cr3, va / 4096) == Leaf(m, cr3, va / 4096)
    requires Large(m', cr3, va / 4096) == Large(m, cr3, va / 4096)
    ensures WalkWrites(m', cr3, 4, va) <==> WalkWrites(m, cr3, 4, va)
  {
    hide Table, WalkWrites, Present, LargePage, Writes, Link;
    var u := va / 4096;
    WritesPath(m, cr3, va);
    WritesPath(m', cr3, va);
    PathKeys(u);
    ZeroAbsent();
    EmptyPath(m, cr3, u);
  }

  /** Below an empty entry there is nothing. */
  lemma EmptyPath(m: Mem, cr3: nat, u: nat)
    ensures Link(m, cr3, 3, u / 512 / 512 / 512) == 0 ==> Link(m, cr3, 2, u / 512 / 512) == 0
    ensures Link(m, cr3, 2, u / 512 / 512) == 0 ==> Link(m, cr3, 1, u / 512) == 0
    ensures Link(m, cr3, 1, u / 512) == 0 ==> Leaf(m, cr3, u) == 0
  {
    hide Load64, PageBase, Present, LargePage;
    ZeroAbsent();
  }

  /** Large pages stay as they are, and none is in the range. */
  ghost predicate LargeKept(m: Mem, m': Mem, cr3: nat, lo: nat, end: nat) {
    forall u: nat | u < VPN_LIMIT :: Large(m', cr3, u) == Large(m, cr3, u) && (lo <= u < end ==> Large(m', cr3, u) == None)
  }

  lemma PlanSmall(r: Machine, cr3: nat, lo: nat, end: nat)
    requires Plan(r, cr3, lo, end)
    ensures forall u: nat | lo <= u < end :: Large(r.mem, cr3, u) == None
  {
    hide Stocked, Large, Table;
    forall u: nat | lo <= u < end
      ensures Large(r.mem, cr3, u) == None
    {
      TableSmall(r.mem, cr3, u);
    }
  }

  /** A page with a level-1 table lies in no large page. */
  lemma TableSmall(m: Mem, cr3: nat, u: nat)
    requires Table(m, cr3, 1, u / 512).Some?
    ensures Large(m, cr3, u) == None
  {
    hide Load64, Present, LargePage, PageBase;
    UpperSome(m, cr3, u / 512);
  }

  /** Exactly the missing tables of the range are allocated, each from its own
      frame, taken in order from the firmware. */
  lemma MapAllocates(s: Machine, cr3: nat, phys: nat, v: nat, n: nat, flags: nat)
    requires Mappable(phys, n, flags) && 0 < n && Stocked(s, cr3, v, v + n) && Harmless(s, cr3, v, v + n)
    ensures var s' := MapPages(s, cr3, phys, v, n, flags);
            var missing := Path(v, v + n) - Tables(s.mem, cr3);
            && Tables(s'.mem, cr3) == Tables(s.mem, cr3) + missing
            && |missing| <= |s.pool| && s'.pool == s.pool[|missing|..]
            && (forall l: nat, k: nat | Key(l, k) && Table(s.mem, cr3, l, k).Some? ::
                  Table(s'.mem, cr3, l, k) == Table(s.mem, cr3, l, k))
            && (forall l: nat, k: nat | (l, k) in missing ::
                  Table(s'.mem, cr3, l, k).Some? && Table(s'.mem, cr3, l, k).value in s.pool[..|missing|])
  {
    hide Table, Key, LinkAll, Stocked, Harmless, Tidy, Path, MapPages, Tables, SameUpper, Mapped, SameBytes, SameLeaves;
    var r, s' := LinkAll(s, cr3, v, v + n), MapPages(s, cr3, phys, v, n, flags);
    HarmlessMaps(s, cr3, phys, v, n, flags);
    LinkAllLinks(s, cr3, v, v + n);
    SameTree(r.mem, s'.mem, cr3);
    StageRange(s, cr3, v, v + n);
    PlanAllocates(s, r, cr3, v, v + n);
    var missing := Path(v, v + n) - Tables(s.mem, cr3);
    forall l: nat, k: nat | (l, k) in missing
      ensures Table(s'.mem, cr3, l, k).Some? && Table(s'.mem, cr3, l, k).value in s.pool[..|missing|]
    {
      assert Key(l, k);
    }
  }

  lemma PlanAllocates(s: Machine, r: Machine, cr3: nat, lo: nat, end: nat)
    requires lo < end <= VPN_LIMIT && Linking(s, r, cr3, lo, end) && Served(r.mem, cr3, lo, end)
    ensures var missing := Path(lo, end) - Tables(s.mem, cr3);
            && Tables(r.mem, cr3) == Tables(s.mem, cr3) + missing
            && |missing| <= |s.pool| && r.pool == s.pool[|missing|..]
            && (forall l: nat, k: nat | (l, k) in missing ::
                  Key(l, k) && Table(r.mem, cr3, l, k).Some? && Table(r.mem, cr3, l, k).value in s.pool[..|missing|])
  {
    hide Table, Key, Path, SameBytes, SameLeaves, Tables;
    var path := Path(lo, end);
    EvolvedTables(s, r, cr3, path);
    forall key | key in path
      ensures key in Tables(r.mem, cr3)
    {
      PathServed(r.mem, cr3, lo, end, key.0, key.1);
    }
    var missing := path - Tables(s.mem, cr3);
    assert Tables(r.mem, cr3) == Tables(s.mem, cr3) + missing;
    assert |Tables(r.mem, cr3)| == |Tables(s.mem, cr3)| + |missing|;
    forall l: nat, k: nat | (l, k) in missing
      ensures Key(l, k) && Table(r.mem, cr3, l, k).Some? && Table(r.mem, cr3, l, k).value in s.pool[..|missing|]
    {
      TableHasKey(r.mem, cr3, l, k);
      FreshFromFront(s, r, cr3, path, l, k);
    }
  }

  lemma TableHasKey(m: Mem, cr3: nat, l: nat, k: nat)
    requires (l, k) in Tables(m, cr3)
    ensures Key(l, k)
  {}

  lemma FreshFromFront(s: Machine, s': Machine, cr3: nat, path: set<(nat, nat)>, l: nat, k: nat)
    requires Evolved(s, s', cr3, path) && (l, k) in Tables(s'.mem, cr3) && (l, k) !in Tables(s.mem, cr3)
    ensures Table(s'.mem, cr3, l, k).Some?
    ensures Table(s'.mem, cr3, l, k).value in s.pool[..|s.pool| - |s'.pool|]
  {
    hide Table, Key, Tree;
    TablesHas(s'.mem, cr3, l, k);
    TablesHas(s.mem, cr3, l, k);
    var f := Table(s'.mem, cr3, l, k).value;
    forall i | 0 <= i < |s'.pool|
      ensures s'.pool[i] != f
    {
      assert OffTables(s'.mem, cr3, s'.pool[i], 4096);
    }
    assert s.pool == s.pool[..|s.pool| - |s'.pool|] + s'.pool;
  }

  lemma PathServed(m: Mem, cr3: nat, lo: nat, end: nat, l: nat, k: nat)
    requires lo < end <= VPN_LIMIT && Served(m, cr3, lo, end) && (l, k) in Path(lo, end)
    ensures (l, k) in Tables(m, cr3)
  {
    hide Load64, Entry, Table;
    var size := if l == 1 then 512 else if l == 2 then 0x4_0000 else 0x800_0000;
    var u := if lo <= k * size then k * size else lo;
    assert Prefix(u, l) == k && lo <= u < end;
    assert Table(m, cr3, 1, u / 512).Some?;
    Ancestors(m, cr3, u);
    UpKey(u);
    TablesHas(m, cr3, l, k);
  }

  lemma UpKey(u: nat)
    requires u < VPN_LIMIT
    ensures Key(1, Prefix(u, 1)) && Key(2, Prefix(u, 2)) && Key(3, Prefix(u, 3))
  {}

  lemma Ancestors(m: Mem, cr3: nat, u: nat)
    requires Table(m, cr3, 1, u / 512).Some?
    ensures Table(m, cr3, 2, Prefix(u, 2)).Some? && Table(m, cr3, 3, Prefix(u, 3)).Some?
  {
    hide Load64, Entry;
  }

  /** Memory that is no table, no free frame and past no table is not written. */
  lemma MapKeepsBytes(s: Machine, cr3: nat, phys: nat, v: nat, n: nat, flags: nat, x: nat)
    requires Mappable(phys, n, flags) && 0 < n && Stocked(s, cr3, v, v + n) && Harmless(s, cr3, v, v + n)
    requires OffFrames(s, cr3, x) && OffStores(LinkAll(s, cr3, v, v + n).mem, cr3, v, v + n, x)
    ensures LoadByte(MapPages(s, cr3, phys, v, n, flags).mem, x) == LoadByte(s.mem, x)
  {
    hide Table, Key, Path, MapPages, Stocked, LinkAll, Harmless, TableFrame, Evolved, OffStores, MapsExactly, SameBytes, SameLeaves;
    var r := LinkAll(s, cr3, v, v + n);
    HarmlessMaps(s, cr3, phys, v, n, flags);
    LinkAllLinks(s, cr3, v, v + n);
    EvolvedFrames(s, r, cr3, Path(v, v + n));
  }

  // ------------------------------------------------ one page at a time

  /** Mapping the same range by `n` calls of one page each. */
  function MapEach(s: Machine, cr3: nat, phys: nat, v: nat, n: nat, flags: nat): Machine
    requires Mappable(phys, n, flags)
    decreases n
  {
    if n == 0 then s
    else MapEach(MapPages(s, cr3, phys, v, 1, flags), cr3, phys + 4096, v + 1, n - 1, flags)
  }

  /** A range within one level-1 table never goes past it. */
  lemma InTableHarmless(s: Machine, cr3: nat, lo: nat, end: nat)
    requires end <= NextStart(lo)
    ensures Harmless(s, cr3, lo, end)
  {
    hide Hit, StoredAt, Standing, LinkAll, LeafTable;
  }

  lemma {:induction false} MapEachLeaves(s: Machine, cr3: nat, phys: nat, v: nat, n: nat, flags: nat)
    requires Mappable(phys, n, flags) && Stocked(s, cr3, v, v + n)
    ensures Tree(MapEach(s, cr3, phys, v, n, flags).mem, cr3)
    ensures Mapped(s.mem, MapEach(s, cr3, phys, v, n, flags).mem, cr3, phys, v, v + n, flags)
    ensures forall u: nat | u < VPN_LIMIT :: Large(MapEach(s, cr3, phys, v, n, flags).mem, cr3, u) == Large(s.mem, cr3, u)
    decreases n
  {
    hide Table, Key, Path, Leaf, Large, MapPages, Stocked, Tree, Harmless;
    StockedTree(s, cr3, v, v + n);
    if n > 0 {
      var s1 := MapPages(s, cr3, phys, v, 1, flags);
      OnePageStocked(s, cr3, phys, v, n, flags);
      InTableHarmless(s, cr3, v, v + 1);
      MapLeaves(s, cr3, phys, v, 1, flags);
      if n > 1 {
        StockedLater(s1, cr3, v, v + 1, v + n);
        MapEachLeaves(s1, cr3, phys + 4096, v + 1, n - 1, flags);
      }
    }
  }

  lemma StockedTree(s: Machine, cr3: nat, lo: nat, end: nat)
    requires Stocked(s, cr3, lo, end)
    ensures Tree(s.mem, cr3) && end <= VPN_LIMIT
  {}

  lemma PathShorter(lo: nat, end: nat)
    requires lo < end
    ensures Path(lo, lo + 1) <= Path(lo, end)
  {
    assert forall l :: Prefix(lo, l) <= Prefix(Last(lo, end), l);
  }

  lemma OnePageStocked(s: Machine, cr3: nat, phys: nat, v: nat, n: nat, flags: nat)
    requires Mappable(phys, n, flags) && 0 < n && Stocked(s, cr3, v, v + n)
    ensures Stocked(s, cr3, v, v + 1) && Stocked(MapPages(s, cr3, phys, v, 1, flags), cr3, v, v + n)
  {
    hide Table, Key, Path, MapPages, Tree, PoolApart, LinkAll, Harmless, Tables, Tidy, Mapped, SameUpper, SameBytes, SameLeaves, Evolved;
    PathShorter(v, v + n);
    SubsetSize(Tables(s.mem, cr3) + Path(v, v + 1), Tables(s.mem, cr3) + Path(v, v + n));
    var r := LinkAll(s, cr3, v, v + 1);
    InTableHarmless(s, cr3, v, v + 1);
    HarmlessMaps(s, cr3, phys, v, 1, flags);
    LinkAllLinks(s, cr3, v, v + 1);
    EvolvedWider(s, r, cr3, Path(v, v + 1), Path(v, v + n));
    EvolvedStocked(s, r, cr3, v, v + n);
    AgreeStocked(r, MapPages(s, cr3, phys, v, 1, flags), cr3, v, v + n);
  }

  /** One call for the whole range translates like one call for every page. */
  lemma MapIsPageByPage(s: Machine, cr3: nat, phys: nat, v: nat, n: nat, flags: nat)
    requires Mappable(phys, n, flags) && Stocked(s, cr3, v, v + n) && Harmless(s, cr3, v, v + n)
    ensures forall va: nat | va < 0x1_0000_0000_0000 ::
      Walk(MapPages(s, cr3, phys, v, n, flags).mem, cr3, 4, va)
        == Walk(MapEach(s, cr3, phys, v, n, flags).mem, cr3, 4, va)
  {
    hide Table, Key, Leaf, Large, Walk, MapPages, MapEach, Stocked, Tree, Harmless;
    var s1, s2 := MapPages(s, cr3, phys, v, n, flags), MapEach(s, cr3, phys, v, n, flags);
    MapLeaves(s, cr3, phys, v, n, flags);
    MapEachLeaves(s, cr3, phys, v, n, flags);
    forall va: nat | va < 0x1_0000_0000_0000
      ensures Walk(s1.mem, cr3, 4, va) == Walk(s2.mem, cr3, 4, va)
    {
      WalkLeaf(s1.mem, cr3, va);
      WalkLeaf(s2.mem, cr3, va);
    }
  }

  // ------------------------------------------- harmless is about tables only

  lemma HitPlanned(s: Machine, cr3: nat, lo: nat, end: nat, x: nat, l: nat, k: nat, j: nat)
    requires Stocked(s, cr3, lo, end) && lo < end
    requires Hit(LeafTable(s, cr3, lo).1.mem, cr3, x, l, k, j) || Hit(LinkAll(s, cr3, lo, end).mem, cr3, x, l, k, j)
    ensures Hit(LinkAll(s, cr3, lo, end).mem, cr3, x, l, k, j)
  {
    hide Table, Key, Stocked, LinkAll, LeafTable, Stage, Linking;
    CallStage(s, cr3, lo, end);
    StageTables(LinkAll(s, cr3, lo, end), LeafTable(s, cr3, lo).1, cr3, lo, end);
  }

  lemma HarmlessBy(m0: Mem, m: Mem, cr3: nat, lo: nat, end: nat)
    requires forall k: nat, p: nat, l: nat, k': nat, j: nat
      | lo / 512 <= k && 512 * k + 512 <= p < end
        && Hit(Standing(m0, m, lo, k, p), cr3, StoredAt(m, cr3, k, p), l, k', j) ::
      l == 1 && Repaired(lo, k, p, 512 * k' + j, end)
    ensures HarmlessOn(m0, m, cr3, lo, end)
  {}

  /** Harmlessness carries over to machines with the same tables. */
  lemma HarmlessOnSame(m0: Mem, m: Mem, m0': Mem, m': Mem, cr3: nat, lo: nat, end: nat)
    requires HarmlessOn(m0, m, cr3, lo, end) && end <= VPN_LIMIT
    requires SameUpper(m0, m0', cr3) && SameUpper(m, m', cr3)
    ensures HarmlessOn(m0', m', cr3, lo, end)
  {
    hide Table, Key;
    SameTree(m0, m0', cr3);
    SameTree(m, m', cr3);
    forall k: nat, p: nat, l: nat, k': nat, j: nat
      | lo / 512 <= k && 512 * k + 512 <= p < end
        && Hit(Standing(m0', m', lo, k, p), cr3, StoredAt(m', cr3, k, p), l, k', j)
      ensures l == 1 && Repaired(lo, k, p, 512 * k' + j, end)
    {
      PageOfTable(k);
      SamePage(512 * k, 512 * k);
      assert Hit(Standing(m0, m, lo, k, p), cr3, StoredAt(m, cr3, k, p), l, k', j);
    }
  }

  lemma HarmlessAgrees(s: Machine, s': Machine, cr3: nat, lo: nat, end: nat)
    requires Stocked(s, cr3, lo, end) && Agree(s, s', cr3) && Harmless(s, cr3, lo, end)
    ensures Harmless(s', cr3, lo, end)
  {
    hide LinkAll, LeafTable, Stocked, HarmlessOn, SameUpper;
    StockedTree(s, cr3, lo, end);
    LinkAllAgrees(s, s', cr3, lo, end);
    LeafTableAgrees(s, s', cr3, lo, end);
    HarmlessOnSame(LeafTable(s, cr3, lo).1.mem, LinkAll(s, cr3, lo, end).mem,
                   LeafTable(s', cr3, lo).1.mem, LinkAll(s', cr3, lo, end).mem, cr3, lo, end);
  }

  /** Mapping a range a second time, as the loop does after every recursive call,
      changes no translation and takes no frame; the very first store past the
      table must then do no harm in any planned table either. */
  lemma MapAgain(s: Machine, cr3: nat, phys: nat, v: nat, n: nat, flags: nat)
    requires Mappable(phys, n, flags) && 0 < n && Stocked(s, cr3, v, v + n)
    requires var plan := LinkAll(s, cr3, v, v + n).mem; HarmlessOn(plan, plan, cr3, v, v + n)
    ensures var s1 := MapPages(s, cr3, phys, v, n, flags);
            var s2 := MapPages(s1, cr3, phys, v, n, flags);
            && s2.pool == s1.pool
            && SameLeaves(s1.mem, s2.mem, cr3)
  {
    hide Table, Key, Leaf, Large, Link, MapPages, Stocked, HarmlessOn, LinkAll, LeafTable, SameUpper, Tidy, Linking, Tree;
    var r, s1 := LinkAll(s, cr3, v, v + n), MapPages(s, cr3, phys, v, n, flags);
    PlanHarmless(s, cr3, v, v + n);
    HarmlessMaps(s, cr3, phys, v, n, flags);
    LinkAllLinks(s, cr3, v, v + n);
    PlanAgain(r, cr3, v, v + n);
    AgreeStocked(r, s1, cr3, v, v + n);
    HarmlessAgrees(r, s1, cr3, v, v + n);
    HarmlessMaps(s1, cr3, phys, v, n, flags);
    AgreeServed(r, s1, cr3, v, v + n);
    AllThere(s1, cr3, v, v + n);
    SameTree(s1.mem, MapPages(s1, cr3, phys, v, n, flags).mem, cr3);
    SameLarge(s1.mem, MapPages(s1, cr3, phys, v, n, flags).mem, cr3);
  }

  lemma PlanHarmless(s: Machine, cr3: nat, lo: nat, end: nat)
    requires Stocked(s, cr3, lo, end) && lo < end
    requires HarmlessOn(LinkAll(s, cr3, lo, end).mem, LinkAll(s, cr3, lo, end).mem, cr3, lo, end)
    ensures Harmless(s, cr3, lo, end)
  {
    hide Hit, StoredAt, Stocked, LinkAll, LeafTable;
    var m0, m := LeafTable(s, cr3, lo).1.mem, LinkAll(s, cr3, lo, end).mem;
    forall k: nat, p: nat, l: nat, k': nat, j: nat
      | lo / 512 <= k && 512 * k + 512 <= p < end
        && Hit(Standing(m0, m, lo, k, p), cr3, StoredAt(m, cr3, k, p), l, k', j)
      ensures l == 1 && Repaired(lo, k, p, 512 * k' + j, end)
    {
      HitPlanned(s, cr3, lo, end, StoredAt(m, cr3, k, p), l, k', j);
      assert Standing(m, m, lo, k, p) == m;
    }
  }

  /** The plan, carried out, has nothing left to plan. */
  lemma PlanAgain(r: Machine, cr3: nat, lo: nat, end: nat)
    requires Plan(r, cr3, lo, end) && HarmlessOn(r.mem, r.mem, cr3, lo, end)
    ensures Harmless(r, cr3, lo, end) && end <= VPN_LIMIT
  {
    hide HarmlessOn, LinkAll, LeafTable, Stocked, Table;
    StageRange(r, cr3, lo, end);
    AllThere(r, cr3, lo, end);
    TablesThere(r, cr3, lo, end);
  }
}
