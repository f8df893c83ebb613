/** Which orders of handing out frames let the words stored past a level-1 table
    do harm, and over which ranges. */
module SpillLayouts {
  import opened Memory
  import opened Options
  import opened PageTables
  import opened TableLinking
  import opened PageMapping
  import opened TablePlan
  import opened MappingProof
  import opened MappingTheorems

  /** Level-1 tables that lie one after another are never harmed: the word past
      one is the right entry of the next. */
  lemma ConsecutiveHarmless(s: Machine, cr3: nat, lo: nat, end: nat, t: nat)
    requires Stocked(s, cr3, lo, end) && lo < end
    requires forall k: nat | lo / 512 <= k && 512 * k < end ::
      Table(LinkAll(s, cr3, lo, end).mem, cr3, 1, k) == Some(t + 4096 * (k - lo / 512))
    ensures Harmless(s, cr3, lo, end)
  {
    hide Table, Key, Tree, Hit, Stocked, LinkAll, LeafTable, Stage;
    var m0, m := LeafTable(s, cr3, lo).1.mem, LinkAll(s, cr3, lo, end).mem;
    CallStage(s, cr3, lo, end);
    PlanAligned(LinkAll(s, cr3, lo, end), cr3, lo, end);
    forall k: nat, p: nat, l: nat, k': nat, j: nat
      | lo / 512 <= k && 512 * k + 512 <= p < end
        && Hit(Standing(m0, m, lo, k, p), cr3, StoredAt(m, cr3, k, p), l, k', j)
      ensures l == 1 && Repaired(lo, k, p, 512 * k' + j, end)
    {
      var x := StoredAt(m, cr3, k, p);
      HitPlanned(s, cr3, lo, end, x, l, k', j);
      SamePage(p, p);
      assert Table(m, cr3, 1, p / 512) == Some(t + 4096 * (p / 512 - lo / 512));
      assert x == t + 4096 * (p / 512 - lo / 512) + 8 * (p % 512);
      SameHit(m, cr3, x, p / 512, p % 512, l, k', j);
    }
  }

  lemma SameHit(m: Mem, cr3: nat, x: nat, k: nat, j: nat, l': nat, k': nat, j': nat)
    requires Tree(m, cr3) && Hit(m, cr3, x, l', k', j')
    requires Key(1, k) && j < 512 && Table(m, cr3, 1, k).Some? && x == Table(m, cr3, 1, k).value + 8 * j
    ensures (l', k', j') == (1, k, j)
  {
    hide Table, Key, Tree;
    if (1, k, j) != (l', k', j') {
      EntriesApart(m, cr3, 1, k, j, l', k', j');
    }
  }

  // --------------------------------------------------- one missing table

  /** A table of the path that is missing has an empty entry above it and a frame
      left to fill it. */
  lemma MissingEntry(s: Machine, cr3: nat, lo: nat, end: nat, l: nat, k: nat)
    requires Stocked(s, cr3, lo, end) && 1 <= l <= 3 && k == Prefix(lo, l)
    requires Table(s.mem, cr3, l + 1, k / 512).Some? && Table(s.mem, cr3, l, k).None?
    ensures Tree(s.mem, cr3) && PoolApart(s, cr3) && s.pool != []
    ensures Key(l, k) && Key(l + 1, k / 512) && 512 * (k / 512) + k % 512 == k && (l, k) in Path(lo, end)
    ensures Entry(s.mem, Table(s.mem, cr3, l + 1, k / 512).value, k % 512) == 0
  {
    hide Load64, Entry, Path, PageBase;
    PathHere(lo, end);
    ParentKey(l, k);
    TablesHas(s.mem, cr3, l, k);
    PoolHeadFree(s, cr3, Path(lo, end), l, k);
    var e := Link(s.mem, cr3, l, k);
    if e != 0 {
      assert TableEntry(e);
      TableOfLink(s.mem, cr3, l, k);
    }
  }

  /** One step that allocates: the table is the next frame, and no other appears. */
  lemma MissingStep(s: Machine, cr3: nat, lo: nat, end: nat, l: nat, k: nat)
    requires Stocked(s, cr3, lo, end) && 1 <= l <= 3 && k == Prefix(lo, l)
    requires Table(s.mem, cr3, l + 1, k / 512).Some? && Table(s.mem, cr3, l, k).None?
    ensures s.pool != []
    ensures var (t, s1) := NextTable(s, Table(s.mem, cr3, l + 1, k / 512).value, k % 512);
            && t == s.pool[0] && s1.pool == s.pool[1..] && Table(s1.mem, cr3, l, k) == Some(t)
            && Stocked(s1, cr3, lo, end) && Evolved(s, s1, cr3, {(l, k)})
  {
    hide Load64, Store64, Zero, Table, Key, Entry, Stocked, Evolved, Tree, PoolApart, Path;
    MissingEntry(s, cr3, lo, end, l, k);
    LinkEvolved(s, cr3, l + 1, k / 512, k % 512, {(l, k)});
    var s1 := NextTable(s, Table(s.mem, cr3, l + 1, k / 512).value, k % 512).1;
    EvolvedWider(s, s1, cr3, {(l, k)}, Path(lo, end));
    EvolvedStocked(s, s1, cr3, lo, end);
  }

  lemma UpperThere(s: Machine, cr3: nat, v: nat, end: nat)
    requires Stocked(s, cr3, v, end) && Table(s.mem, cr3, 2, v / 512 / 512).Some?
    ensures LeafTable(s, cr3, v) == NextTable(s, Table(s.mem, cr3, 2, v / 512 / 512).value, v / 512 % 512)
  {
    hide Load64, Entry, Stocked, Table, FrameOf;
    TopPrefix(v, s, cr3, end);
    UpperSome(s.mem, cr3, v / 512 / 512);
    RootTable(s.mem, cr3);
    NextThere(s, cr3, v, end, 3, v / 512 / 512 / 512);
    NextThere(s, cr3, v, end, 2, v / 512 / 512);
  }

  /** With its level-2 table there and its level-1 table missing, a page takes one
      frame. */
  lemma LeafStep(s: Machine, cr3: nat, lo: nat, end: nat)
    requires Stocked(s, cr3, lo, end)
    requires Table(s.mem, cr3, 2, lo / 512 / 512).Some? && Table(s.mem, cr3, 1, lo / 512).None?
    ensures s.pool != []
    ensures var (t, s1) := LeafTable(s, cr3, lo);
            && t == s.pool[0] && s1.pool == s.pool[1..] && Table(s1.mem, cr3, 1, lo / 512) == Some(t)
            && Stocked(s1, cr3, lo, end) && Evolved(s, s1, cr3, {(1, lo / 512)})
  {
    hide Table, Stocked, NextTable, Evolved;
    UpperThere(s, cr3, lo, end);
    MissingStep(s, cr3, lo, end, 1, lo / 512);
  }

  /** With an upper table missing, the first frame taken becomes one. */
  lemma UpperStep(s: Machine, cr3: nat, lo: nat, end: nat) returns (l: nat, k: nat)
    requires Stocked(s, cr3, lo, end) && Table(s.mem, cr3, 2, lo / 512 / 512).None?
    ensures s.pool != [] && 2 <= l <= 3 && Key(l, k)
    ensures Table(LeafTable(s, cr3, lo).1.mem, cr3, l, k) == Some(s.pool[0])
  {
    hide Table, Stocked, NextTable, Linking;
    var k3, k2, k1 := lo / 512 / 512 / 512, lo / 512 / 512, lo / 512;
    StageRange(s, cr3, lo, end);
    PathHere(lo, end);
    TopPrefix(lo, s, cr3, end);
    RootTable(s.mem, cr3);
    var (pml3, s3) := NextTable(s, cr3, k3 % 512);
    var (pml2, s2) := NextTable(s3, pml3, k2 % 512);
    NextTableStep(s, cr3, 4, 0, k3 % 512, lo, end);
    NextTableStep(s3, cr3, 3, k3, k2 % 512, lo, end);
    NextTableStep(s2, cr3, 2, k2, k1 % 512, lo, end);
    var s1 := NextTable(s2, pml2, k1 % 512).1;
    LinkingTrans(s3, s2, s1, cr3, lo, end);
    if Table(s.mem, cr3, 3, k3).None? {
      MissingStep(s, cr3, lo, end, 3, k3);
      l, k := 3, k3;
      LinkingTable(s3, s1, cr3, lo, end, 3, k3);
    } else {
      NextThere(s, cr3, lo, end, 3, k3);
      MissingStep(s, cr3, lo, end, 2, k2);
      l, k := 2, k2;
      LinkingTable(s2, s1, cr3, lo, end, 2, k2);
    }
  }

  lemma LinkingTable(s: Machine, s': Machine, cr3: nat, lo: nat, end: nat, l: nat, k: nat)
    requires Linking(s, s', cr3, lo, end) && Key(l, k) && Table(s.mem, cr3, l, k).Some?
    ensures Table(s'.mem, cr3, l, k) == Table(s.mem, cr3, l, k)
  {
    hide Table, Key, Tree, PoolApart, SameBytes, SameLeaves;
  }

  // --------------------------------------------------------- frames upwards

  /** The free frames lie one after another behind `prev`. */
  ghost predicate Adjoins(s: Machine, prev: nat) {
    forall i | 0 <= i < |s.pool| :: s.pool[i] == prev + 4096 * (i + 1)
  }

  /** The level-1 tables from page `lo` on are all missing. */
  ghost predicate LacksLeaves(s: Machine, cr3: nat, lo: nat, end: nat) {
    forall k: nat | lo / 512 <= k && 512 * k < end :: Table(s.mem, cr3, 1, k).None?
  }

  /** The level-2 tables above them are all there. */
  ghost predicate HasUppers(s: Machine, cr3: nat, lo: nat, end: nat) {
    forall k: nat | lo / 512 <= k && 512 * k < end :: Table(s.mem, cr3, 2, k / 512).Some?
  }

  /** One more level-1 table leaves the others as they are. */
  lemma AfterLeaf(s: Machine, cr3: nat, prev: nat, lo: nat, end: nat)
    requires Stocked(s, cr3, lo, end) && lo < end && Adjoins(s, prev) && LacksLeaves(s, cr3, lo, end)
    requires Table(s.mem, cr3, 2, lo / 512 / 512).Some?
    ensures var (t, s1) := LeafTable(s, cr3, lo);
            && t == prev + 4096 && Table(s1.mem, cr3, 1, lo / 512) == Some(t) && Adjoins(s1, t)
            && Stocked(s1, cr3, lo, end) && LacksLeaves(s1, cr3, NextStart(lo), end)
            && (HasUppers(s, cr3, NextStart(lo), end) <==> HasUppers(s1, cr3, NextStart(lo), end))
  {
    hide Table, Key, Stocked, LeafTable, Tree, PoolApart, Tables;
    StageRange(s, cr3, lo, end);
    PageOfTable(lo / 512);
    PageOfTable(lo / 512 + 1);
    LeafStep(s, cr3, lo, end);
    forall k: nat | lo / 512 < k && 512 * k < end
      ensures Key(1, k) && Key(2, k / 512)
    {
      SamePage(512 * k, 512 * k);
      PageOfTable(k);
      ParentKey(1, k);
    }
  }

  /** As long as only level-1 tables are missing, they come to lie one after
      another. */
  lemma {:induction false} UpwardTables(s: Machine, cr3: nat, prev: nat, lo: nat, end: nat)
    requires Stocked(s, cr3, lo, end) && lo < end
    requires Adjoins(s, prev) && LacksLeaves(s, cr3, lo, end) && HasUppers(s, cr3, lo, end)
    ensures forall k: nat | lo / 512 <= k && 512 * k < end ::
      Table(LinkAll(s, cr3, lo, end).mem, cr3, 1, k) == Some(prev + 4096 * (k - lo / 512 + 1))
    decreases end - lo
  {
    hide Table, Key, Stocked, LeafTable, Adjoins, LacksLeaves, Linking;
    var (t, s1) := LeafTable(s, cr3, lo);
    var next, r := NextStart(lo), LinkAll(s, cr3, lo, end);
    StageRange(s, cr3, lo, end);
    HereUpper(s, cr3, lo, end);
    AfterLeaf(s, cr3, prev, lo, end);
    PageOfTable(lo / 512 + 1);
    if next < end {
      StockedLater(s1, cr3, lo, next, end);
      UpwardTables(s1, cr3, t, next, end);
      LinkAllLinks(s1, cr3, next, end);
      LinkingKeeps(s1, r, cr3, next, end, lo);
    }
  }

  lemma HereUpper(s: Machine, cr3: nat, lo: nat, end: nat)
    requires lo < end && HasUppers(s, cr3, lo, end)
    ensures Table(s.mem, cr3, 2, lo / 512 / 512).Some? && HasUppers(s, cr3, NextStart(lo), end)
  {
    hide Table;
    PageOfTable(lo / 512 + 1);
    assert Table(s.mem, cr3, 2, (lo / 512) / 512).Some?;
  }

  /** Where an upper table is missing, it comes to lie behind the level-1 table before
      it. */
  lemma {:induction false} MeetsUpper(s: Machine, cr3: nat, prev: nat, lo: nat, end: nat) returns (k: nat, l: nat, k': nat)
    requires Stocked(s, cr3, lo, end) && lo < end && lo % 512 == 0
    requires Adjoins(s, prev) && LacksLeaves(s, cr3, lo, end) && !HasUppers(s, cr3, lo, end)
    ensures lo / 512 <= k && 512 * k < end && 2 <= l <= 3 && Key(l, k')
    ensures var m := LinkAll(s, cr3, lo, end).mem;
            && Table(m, cr3, l, k') == Some(prev + 4096 * (k - lo / 512 + 1))
            && (k > lo / 512 ==> Table(m, cr3, 1, k - 1) == Some(prev + 4096 * (k - lo / 512)))
    decreases end - lo
  {
    hide Table, Key, Stocked, LeafTable, LacksLeaves, Linking;
    var (t, s1) := LeafTable(s, cr3, lo);
    var next, r := NextStart(lo), LinkAll(s, cr3, lo, end);
    StageRange(s, cr3, lo, end);
    if Table(s.mem, cr3, 2, lo / 512 / 512).Some? {
      AfterLeaf(s, cr3, prev, lo, end);
      LaterUppers(s, cr3, lo, end);
      PageOfTable(lo / 512 + 1);
      StockedLater(s1, cr3, lo, next, end);
      k, l, k' := MeetsUpper(s1, cr3, t, next, end);
      LinkAllLinks(s1, cr3, next, end);
      LinkingKeeps(s1, r, cr3, next, end, lo);
    } else {
      l, k' := UpperStep(s, cr3, lo, end);
      k := lo / 512;
      LeafTableStep(s, cr3, lo, end);
      if next < end {
        StockedLater(s1, cr3, lo, next, end);
        LinkAllLinks(s1, cr3, next, end);
        LinkingTable(s1, r, cr3, next, end, l, k');
      }
    }
  }

  lemma LaterUppers(s: Machine, cr3: nat, lo: nat, end: nat)
    requires !HasUppers(s, cr3, lo, end) && Table(s.mem, cr3, 2, lo / 512 / 512).Some?
    ensures NextStart(lo) < end && !HasUppers(s, cr3, NextStart(lo), end)
  {
    hide Table;
    PageOfTable(lo / 512 + 1);
  }

  /** The firmware hands out the frames behind the first level-1 table, upwards, and
      all other level-1 tables of the range are missing. */
  ghost predicate Upward(s: Machine, cr3: nat, lo: nat, end: nat) {
    var (t, s1) := LeafTable(s, cr3, lo);
    Adjoins(s1, t) && LacksLeaves(s1, cr3, NextStart(lo), end)
  }

  /** Then the call is harmless exactly when no upper table is missing either, behind
      the first, or the range goes one page at most past the first table. */
  lemma UpwardExact(s: Machine, cr3: nat, lo: nat, end: nat)
    requires Stocked(s, cr3, lo, end) && lo < end && Upward(s, cr3, lo, end)
    ensures Harmless(s, cr3, lo, end)
       <==> end <= NextStart(lo) + 1 || HasUppers(LeafTable(s, cr3, lo).1, cr3, NextStart(lo), end)
  {
    hide Table, Key, Stocked, LeafTable, LinkAll, HarmlessOn, Adjoins, LacksLeaves, HasUppers, Linking;
    var s1 := LeafTable(s, cr3, lo).1;
    LeafTableStep(s, cr3, lo, end);
    if end <= NextStart(lo) + 1 {
      OnePastHarmless(s, cr3, lo, end);
    } else {
      StockedLater(s1, cr3, lo, NextStart(lo), end);
      if HasUppers(s1, cr3, NextStart(lo), end) {
        AllUpward(s, cr3, lo, end);
      } else {
        UpperHit(s, cr3, lo, end);
      }
    }
  }

  lemma NextIs(s: Machine, cr3: nat, lo: nat, end: nat)
    requires lo < end
    ensures LinkAll(s, cr3, lo, end) == LinkAll(LeafTable(s, cr3, lo).1, cr3, NextStart(lo), end)
    ensures NextStart(lo) / 512 == lo / 512 + 1 && NextStart(lo) % 512 == 0
  {
    hide LeafTable;
    PageOfTable(lo / 512 + 1);
  }

  lemma AllUpward(s: Machine, cr3: nat, lo: nat, end: nat)
    requires Stocked(s, cr3, lo, end) && NextStart(lo) < end && Upward(s, cr3, lo, end)
    requires Stocked(LeafTable(s, cr3, lo).1, cr3, NextStart(lo), end)
    requires HasUppers(LeafTable(s, cr3, lo).1, cr3, NextStart(lo), end)
    ensures Harmless(s, cr3, lo, end)
  {
    hide Table, Stocked, LeafTable, LinkAll, Harmless, Adjoins, LacksLeaves, HasUppers, Linking;
    var (t, s1) := LeafTable(s, cr3, lo);
    var r := LinkAll(s, cr3, lo, end);
    StageRange(s, cr3, lo, end);
    NextIs(s, cr3, lo, end);
    LeafTableStep(s, cr3, lo, end);
    UpwardTables(s1, cr3, t, NextStart(lo), end);
    LinkAllLinks(s1, cr3, NextStart(lo), end);
    LinkingKeeps(s1, r, cr3, NextStart(lo), end, lo);
    ConsecutiveHarmless(s, cr3, lo, end, t);
  }

  /** The first entry, or the second, of the upper table is hit. */
  lemma UpperHit(s: Machine, cr3: nat, lo: nat, end: nat)
    requires Stocked(s, cr3, lo, end) && NextStart(lo) + 1 < end && Upward(s, cr3, lo, end)
    requires Stocked(LeafTable(s, cr3, lo).1, cr3, NextStart(lo), end)
    requires !HasUppers(LeafTable(s, cr3, lo).1, cr3, NextStart(lo), end)
    ensures !Harmless(s, cr3, lo, end)
  {
    hide Table, Key, Stocked, LeafTable, LinkAll, Adjoins, LacksLeaves, HasUppers, Linking;
    var (t, s1) := LeafTable(s, cr3, lo);
    var r := LinkAll(s, cr3, lo, end);
    StageRange(s, cr3, lo, end);
    NextIs(s, cr3, lo, end);
    LeafTableStep(s, cr3, lo, end);
    LinkAllLinks(s1, cr3, NextStart(lo), end);
    LinkingKeeps(s1, r, cr3, NextStart(lo), end, lo);
    var k, l, k' := MeetsUpper(s1, cr3, t, NextStart(lo), end);
    var j := if k == lo / 512 + 1 then 1 else 0;
    var p := 512 * k + j;
    assert StoredAt(r.mem, cr3, k - 1, p) == t + 4096 * (k - lo / 512) + 8 * j;
    assert Hit(Standing(s1.mem, r.mem, lo, k - 1, p), cr3, StoredAt(r.mem, cr3, k - 1, p), l, k', j);
  }

  /** One store past the first table hits a frame that is still free. */
  lemma OnePastHarmless(s: Machine, cr3: nat, lo: nat, end: nat)
    requires Stocked(s, cr3, lo, end) && lo < end <= NextStart(lo) + 1 && Upward(s, cr3, lo, end)
    ensures Harmless(s, cr3, lo, end)
  {
    hide Table, Key, Stocked, LeafTable, LinkAll, LacksLeaves, Linking;
    var (t, s1) := LeafTable(s, cr3, lo);
    var r := LinkAll(s, cr3, lo, end);
    if end == NextStart(lo) + 1 {
      StageRange(s, cr3, lo, end);
      NextIs(s, cr3, lo, end);
      LeafTableStep(s, cr3, lo, end);
      StockedLater(s1, cr3, lo, NextStart(lo), end);
      FrameLeft(s1, cr3, NextStart(lo), end);
      LinkAllLinks(s1, cr3, NextStart(lo), end);
      LinkingKeeps(s1, r, cr3, NextStart(lo), end, lo);
      assert StoredAt(r.mem, cr3, lo / 512, NextStart(lo)) == s1.pool[0];
      forall l: nat, k': nat, j: nat
        ensures !Hit(s1.mem, cr3, s1.pool[0], l, k', j)
      {
        FreeUnhit(s1, cr3, l, k', j);
      }
    }
  }

  lemma FrameLeft(s: Machine, cr3: nat, lo: nat, end: nat)
    requires Stocked(s, cr3, lo, end) && lo < end && LacksLeaves(s, cr3, lo, end)
    ensures s.pool != [] && PoolApart(s, cr3)
  {
    hide Table, Tree;
    PathHere(lo, end);
    TablesHas(s.mem, cr3, 1, lo / 512);
    assert Table(s.mem, cr3, 1, lo / 512).None?;
    PoolHeadFree(s, cr3, Path(lo, end), 1, lo / 512);
  }

  lemma FreeUnhit(s: Machine, cr3: nat, l: nat, k: nat, j: nat)
    requires PoolApart(s, cr3) && s.pool != []
    ensures !Hit(s.mem, cr3, s.pool[0], l, k, j)
  {
    hide Table, Key;
    assert OffTables(s.mem, cr3, s.pool[0], 4096);
  }

  // --------------------------------------------------- an empty root entry

  /** The range lies under one root entry, which is empty: as for a kernel at the top
      of an address space the firmware does not use. */
  ghost predicate EmptySlot(s: Machine, cr3: nat, lo: nat, end: nat) {
    lo < end && Table(s.mem, cr3, 3, Prefix(lo, 3)).None? && Prefix(end - 1, 3) == Prefix(lo, 3)
  }

  /** Then the first three frames become the first page's tables, top down. */
  lemma FirstThree(s: Machine, cr3: nat, lo: nat, end: nat)
    requires Stocked(s, cr3, lo, end) && EmptySlot(s, cr3, lo, end)
    ensures 3 <= |s.pool|
    ensures var (t, s1) := LeafTable(s, cr3, lo);
            && t == s.pool[2] && s1.pool == s.pool[3..]
            && Stocked(s1, cr3, lo, end) && Table(s1.mem, cr3, 2, Prefix(lo, 2)) == Some(s.pool[1])
            && Evolved(s, s1, cr3, {(3, Prefix(lo, 3)), (2, Prefix(lo, 2)), (1, Prefix(lo, 1))})
  {
    hide Table, Stocked, NextTable, Evolved;
    var k3, k2, k1 := lo / 512 / 512 / 512, lo / 512 / 512, lo / 512;
    StageRange(s, cr3, lo, end);
    TopPrefix(lo, s, cr3, end);
    UpKey(lo);
    RootTable(s.mem, cr3);
    UpperSome(s.mem, cr3, k2);
    UpperSome(s.mem, cr3, k1);
    var (pml3, s3) := NextTable(s, cr3, k3 % 512);
    MissingStep(s, cr3, lo, end, 3, k3);
    EvolvedTable(s, s3, cr3, 3, k3, 2, k2);
    EvolvedTable(s, s3, cr3, 3, k3, 1, k1);
    var (pml2, s2) := NextTable(s3, pml3, k2 % 512);
    MissingStep(s3, cr3, lo, end, 2, k2);
    EvolvedTable(s3, s2, cr3, 2, k2, 1, k1);
    MissingStep(s2, cr3, lo, end, 1, k1);
    var s1 := NextTable(s2, pml2, k1 % 512).1;
    EvolvedTable(s2, s1, cr3, 1, k1, 2, k2);
    EvolvedThree(s, s3, s2, s1, cr3, (3, k3), (2, k2), (1, k1));
  }

  lemma EvolvedTable(s: Machine, s': Machine, cr3: nat, l: nat, k: nat, l': nat, k': nat)
    requires Evolved(s, s', cr3, {(l, k)}) && Key(l', k') && (l', k') != (l, k)
    ensures Table(s'.mem, cr3, l', k') == Table(s.mem, cr3, l', k')
  {
    hide Table, Key, Tree, PoolApart, LinksKept;
  }

  lemma EvolvedThree(s: Machine, s3: Machine, s2: Machine, s1: Machine, cr3: nat, a: (nat, nat), b: (nat, nat), c: (nat, nat))
    requires Evolved(s, s3, cr3, {a}) && Evolved(s3, s2, cr3, {b}) && Evolved(s2, s1, cr3, {c})
    ensures Evolved(s, s1, cr3, {a, b, c})
  {
    hide Evolved;
    EvolvedWider(s, s3, cr3, {a}, {a, b, c});
    EvolvedWider(s3, s2, cr3, {b}, {a, b, c});
    EvolvedWider(s2, s1, cr3, {c}, {a, b, c});
    EvolvedTrans(s, s3, s2, cr3, {a, b, c});
    EvolvedTrans(s, s2, s1, cr3, {a, b, c});
  }

  /** No other table is there or becomes one. */
  lemma SlotTables(s: Machine, cr3: nat, lo: nat, end: nat, k: nat)
    requires Stocked(s, cr3, lo, end) && EmptySlot(s, cr3, lo, end) && lo / 512 < k && 512 * k < end
    ensures var m := LeafTable(s, cr3, lo).1.mem;
            && Table(m, cr3, 1, k).None?
            && (Table(m, cr3, 2, k / 512).Some? <==> k / 512 == Prefix(lo, 2))
  {
    hide Table, Stocked, LeafTable, Tree, PoolApart, LinksKept, Tables;
    StageRange(s, cr3, lo, end);
    FirstThree(s, cr3, lo, end);
    PageOfTable(k);
    SamePage(512 * k, 512 * k);
    ParentKey(1, k);
    SlotPrefix(lo, end, k);
    UpperSome(s.mem, cr3, k);
    UpperSome(s.mem, cr3, k / 512);
  }

  lemma SlotPrefix(lo: nat, end: nat, k: nat)
    requires lo / 512 < k && 512 * k < end && Prefix(end - 1, 3) == Prefix(lo, 3)
    ensures k / 512 / 512 == Prefix(lo, 3)
    ensures Prefix(lo, 2) <= k / 512 <= Prefix(end - 1, 2)
  {
    assert lo / 512 <= k <= (end - 1) / 512;
    assert lo / 512 / 512 <= k / 512 <= (end - 1) / 512 / 512;
  }

  /** Frames handed out upwards: harmless exactly when the range stays in the
      gigabyte of its first page, or goes one page at most past the first table. */
  lemma SlotUpwardExact(s: Machine, cr3: nat, lo: nat, end: nat)
    requires Stocked(s, cr3, lo, end) && EmptySlot(s, cr3, lo, end)
    requires forall i | 0 <= i < |s.pool| :: s.pool[i] == s.pool[0] + 4096 * i
    ensures Harmless(s, cr3, lo, end)
       <==> end <= NextStart(lo) + 1 || Prefix(end - 1, 2) == Prefix(lo, 2)
  {
    hide Table, Stocked, LeafTable, Harmless, Evolved;
    var (t, s1) := LeafTable(s, cr3, lo);
    FirstThree(s, cr3, lo, end);
    forall k: nat | lo / 512 < k && 512 * k < end
      ensures Table(s1.mem, cr3, 1, k).None?
      ensures Table(s1.mem, cr3, 2, k / 512).Some? <==> k / 512 == Prefix(lo, 2)
    {
      SlotTables(s, cr3, lo, end, k);
    }
    PageOfTable(lo / 512 + 1);
    UpwardExact(s, cr3, lo, end);
    if NextStart(lo) < end {
      var last := (end - 1) / 512;
      assert lo / 512 < last && 512 * last < end;
      assert Table(s1.mem, cr3, 2, last / 512).Some? <==> Prefix(end - 1, 2) == Prefix(lo, 2);
      forall k: nat | lo / 512 < k && 512 * k < end
        ensures Prefix(end - 1, 2) == Prefix(lo, 2) ==> Table(s1.mem, cr3, 2, k / 512).Some?
      {
        SlotPrefix(lo, end, k);
        SlotTables(s, cr3, lo, end, k);
      }
    }
  }

  /** Frames handed out downwards: harmful exactly when the range leaves its first
      level-1 table, behind which its level-2 table lies. */
  lemma SlotDownwardExact(s: Machine, cr3: nat, lo: nat, end: nat)
    requires Stocked(s, cr3, lo, end) && EmptySlot(s, cr3, lo, end)
    requires forall i | 0 <= i < |s.pool| :: s.pool[i] + 4096 * i == s.pool[0]
    ensures Harmless(s, cr3, lo, end) <==> end <= NextStart(lo)
  {
    hide Table, Key, Stocked, LeafTable, LinkAll, Evolved, Linking, Agree, Stage;
    var (t, s1) := LeafTable(s, cr3, lo);
    var r := LinkAll(s, cr3, lo, end);
    StageRange(s, cr3, lo, end);
    FirstThree(s, cr3, lo, end);
    UpKey(lo);
    if NextStart(lo) < end {
      CallStage(s, cr3, lo, end);
      assert StoredAt(r.mem, cr3, lo / 512, NextStart(lo)) == s.pool[1];
      assert Hit(Standing(s1.mem, r.mem, lo, lo / 512, NextStart(lo)), cr3, s.pool[1], 2, Prefix(lo, 2), 0);
    } else {
      InTableHarmless(s, cr3, lo, end);
    }
  }
}
