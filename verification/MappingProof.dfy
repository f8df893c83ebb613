/** MapVirtualPages maps exactly the requested pages, whatever number of page
    tables the range crosses, as long as its stores past a table do no harm. */
module MappingProof {
  import opened Words
  import opened Memory
  import opened Options
  import opened PageTables
  import opened PageMapping
  import opened TablePlan

  /** Page `u` after mapping lo .. end, the first one to `phys`. */
  ghost predicate Mapped(m: Mem, m': Mem, cr3: nat, phys: nat, lo: nat, end: nat, flags: nat) {
    forall u: nat | u < VPN_LIMIT ::
      Leaf(m', cr3, u) == if lo <= u < end then phys + 4096 * (u - lo) + flags else Leaf(m, cr3, u)
  }

  /** The word at `x` is entry `j` of the table of key (`l`, `k`). */
  ghost predicate Hit(m: Mem, cr3: nat, x: nat, l: nat, k: nat, j: nat) {
    Key(l, k) && j < 512 && Table(m, cr3, l, k).Some? && x == Table(m, cr3, l, k).value + 8 * j
  }

  /** Where the entry of page `p` is stored by the loop over the level-1 table of
      prefix `k`. */
  function StoredAt(m: Mem, cr3: nat, k: nat, p: nat): nat {
    match Table(m, cr3, 1, k)
    case Some(t) => if 512 * k <= p then t + 8 * (p - 512 * k) else t
    case None => 0
  }

  /** Page `u`, overwritten by the store for page `p` past the table of `k`, is
      mapped again afterwards. */
  predicate Repaired(lo: nat, k: nat, p: nat, u: nat, end: nat) {
    (if k == lo / 512 then p <= u else 512 * k + 512 <= u) && u < end
  }

  /** The tables in place at a store for page `p` past the table of `k`: those of
      the first table alone at the very first such store, and all afterwards. */
  function Standing(first: Mem, plan: Mem, lo: nat, k: nat, p: nat): Mem {
    if k == lo / 512 && p == NextStart(lo) then first else plan
  }

  ghost predicate HarmlessOn(first: Mem, plan: Mem, cr3: nat, lo: nat, end: nat) {
    forall k: nat, p: nat, l: nat, k': nat, j: nat
      | lo / 512 <= k && 512 * k + 512 <= p < end
        && Hit(Standing(first, plan, lo, k, p), cr3, StoredAt(plan, cr3, k, p), l, k', j) ::
      l == 1 && Repaired(lo, k, p, 512 * k' + j, end)
  }

  /** Every store past a table misses the tables then in place, or hits the entry
      of a page that is mapped again later.  This can be told from the tables and
      the free frames before the call. */
  ghost predicate Harmless(s: Machine, cr3: nat, lo: nat, end: nat) {
    HarmlessOn(LeafTable(s, cr3, lo).1.mem, LinkAll(s, cr3, lo, end).mem, cr3, lo, end)
  }

  /** The weaker condition that suffices for everything but the first table. */
  ghost predicate Contained(plan: Mem, cr3: nat, lo: nat, end: nat) {
    forall k: nat, p: nat, l: nat, k': nat, j: nat
      | lo / 512 <= k && 512 * k + 512 <= p < end && Hit(plan, cr3, StoredAt(plan, cr3, k, p), l, k', j) ::
      l == 1 && 512 * k + 512 <= 512 * k' + j < end
  }

  /** The word at `x` is in no table, or the entry of a page in lo .. end. */
  ghost predicate HitsOnly(m: Mem, cr3: nat, x: nat, lo: nat, end: nat) {
    forall l: nat, k: nat, j: nat | Hit(m, cr3, x, l, k, j) :: l == 1 && lo <= 512 * k + j < end
  }

  ghost predicate SameOutside(m: Mem, m': Mem, cr3: nat, lo: nat, end: nat) {
    forall u: nat | u < VPN_LIMIT && !(lo <= u < end) :: Leaf(m', cr3, u) == Leaf(m, cr3, u)
  }

  /** No loop over a planned table stores past it at `x`. */
  ghost predicate OffStores(plan: Mem, cr3: nat, lo: nat, end: nat, x: nat) {
    forall k: nat | lo / 512 <= k && Key(1, k) && Table(plan, cr3, 1, k).Some? ::
      x < Table(plan, cr3, 1, k).value + 4096 || Table(plan, cr3, 1, k).value + 8 * (end - 512 * k) <= x
  }

  /** From `s` to `s'`, bytes in no frame and under no store keep their value, and
      frames in use or free are those of `s` or of the plan. */
  ghost predicate Tidy(r: Machine, s: Machine, s': Machine, cr3: nat, lo: nat, end: nat) {
    && (forall g: nat | TableFrame(s', cr3, g) :: TableFrame(s, cr3, g) || TableFrame(r, cr3, g))
    && forall x: nat | OffFrames(s, cr3, x) && OffFrames(r, cr3, x) && OffStores(r.mem, cr3, lo, end, x) ::
         LoadByte(s'.mem, x) == LoadByte(s.mem, x)
  }

  // ------------------------------------------------------------- one store

  lemma TableWords(m: Mem, cr3: nat, l: nat, k: nat, j: nat)
    requires cr3 % 4096 == 0 && Table(m, cr3, l, k).Some?
    ensures (Table(m, cr3, l, k).value + 8 * j) % 8 == 0
  {
    TableAligned(m, cr3, l, k);
    Aligned8(Table(m, cr3, l, k).value, j);
  }

  lemma Aligned8(t: nat, j: nat)
    requires t % 4096 == 0
    ensures (t + 8 * j) % 8 == 0
  {
    assert t + 8 * j == 8 * (512 * (t / 4096) + j);
    Eighth(512 * (t / 4096) + j);
  }

  lemma Eighth(x: nat)
    ensures 8 * x % 8 == 0
  {}

  lemma WordsApart(x: nat, y: nat)
    requires x % 8 == 0 && y % 8 == 0 && x != y
    ensures x + 8 <= y || y + 8 <= x
  {}

  lemma StoreKeepsEntry(m: Mem, cr3: nat, x: nat, w: Word, l: nat, k: nat, j: nat)
    requires cr3 % 4096 == 0 && x % 8 == 0
    requires Key(l, k) && j < 512 && Table(m, cr3, l, k).Some? && !Hit(m, cr3, x, l, k, j)
    ensures Entry(Store64(m, x, w), Table(m, cr3, l, k).value, j) == Entry(m, Table(m, cr3, l, k).value, j)
  {
    hide Load64, Store64, Table, Key;
    TableWords(m, cr3, l, k, j);
    WordsApart(x, Table(m, cr3, l, k).value + 8 * j);
    Store64Other(m, x, w, Table(m, cr3, l, k).value + 8 * j);
  }

  lemma StoreKeepsUpper(m: Mem, cr3: nat, x: nat, w: Word)
    requires cr3 % 4096 == 0 && x % 8 == 0
    requires forall l: nat, k: nat, j: nat | Hit(m, cr3, x, l, k, j) :: l < 2
    ensures SameUpper(m, Store64(m, x, w), cr3)
  {
    hide Load64, Store64, Table, Key, Entry;
    forall l: nat, k: nat, j: nat | 2 <= l && Key(l, k) && Table(m, cr3, l, k).Some? && j < 512
      ensures Entry(Store64(m, x, w), Table(m, cr3, l, k).value, j) == Entry(m, Table(m, cr3, l, k).value, j)
    {
      StoreKeepsEntry(m, cr3, x, w, l, k, j);
    }
  }

  /** A store that hits at most level-1 entries of lo .. end. */
  lemma StoreContained(m: Mem, cr3: nat, x: nat, w: Word, lo: nat, end: nat)
    requires cr3 % 4096 == 0 && x % 8 == 0 && HitsOnly(m, cr3, x, lo, end)
    ensures SameUpper(m, Store64(m, x, w), cr3)
    ensures SameOutside(m, Store64(m, x, w), cr3, lo, end)
  {
    hide Load64, Store64, Table, Key, Entry;
    var m' := Store64(m, x, w);
    StoreKeepsUpper(m, cr3, x, w);
    forall u: nat | u < VPN_LIMIT && !(lo <= u < end)
      ensures Leaf(m', cr3, u) == Leaf(m, cr3, u)
    {
      SamePage(u, u);
      SameTables(m, m', cr3, 1, u / 512);
      if Table(m, cr3, 1, u / 512).Some? {
        StoreKeepsEntry(m, cr3, x, w, 1, u / 512, u % 512);
      }
    }
  }

  lemma InTable(v: nat, i: nat)
    requires v % 512 + i <= 511
    ensures (v + i) / 512 == v / 512 && (v + i) % 512 == v % 512 + i
  {}

  /** The store of turn `i` of the loop over the table of `v`. */
  function AfterStore(s: Machine, pml1: nat, phys: nat, v: nat, i: nat, flags: nat): Machine
    requires Mappable(phys, i + 1, flags)
  {
    s.(mem := Store64(s.mem, pml1 + 8 * (v % 512 + i), phys + 4096 * i + flags))
  }

  lemma StoredOffset(v: nat, i: nat)
    ensures v + i - 512 * (v / 512) == v % 512 + i && 512 * (v / 512) <= v + i
  {}

  /** Inside the table the store maps its page; past it, it changes at most the
      pages from .. end. */
  lemma LoopStore(s: Machine, cr3: nat, pml1: nat, phys: nat, v: nat, i: nat, end: nat, flags: nat, from: nat)
    requires Mappable(phys, i + 1, flags)
    requires Tree(s.mem, cr3) && cr3 % 4096 == 0 && from <= v + i < end <= VPN_LIMIT
    requires Table(s.mem, cr3, 1, v / 512) == Some(pml1)
    requires v % 512 + i > 511 ==> HitsOnly(s.mem, cr3, StoredAt(s.mem, cr3, v / 512, v + i), from, end)
    ensures var s1 := AfterStore(s, pml1, phys, v, i, flags);
            && SameUpper(s.mem, s1.mem, cr3) && SameOutside(s.mem, s1.mem, cr3, from, end)
            && Table(s1.mem, cr3, 1, v / 512) == Some(pml1)
            && (v % 512 + i <= 511 ==>
                  SameOutside(s.mem, s1.mem, cr3, v + i, v + i + 1) && Leaf(s1.mem, cr3, v + i) == phys + 4096 * i + flags)
  {
    hide Load64, Store64, Table, Key, Tree, Leaf, HitsOnly;
    var x, w := pml1 + 8 * (v % 512 + i), phys + 4096 * i + flags;
    var s1 := AfterStore(s, pml1, phys, v, i, flags);
    SamePage(v, v);
    if v % 512 + i <= 511 {
      InTable(v, i);
      SamePage(v + i, v + i);
      StoreLeaf(s.mem, cr3, v + i, w);
    } else {
      TableWords(s.mem, cr3, 1, v / 512, v % 512 + i);
      StoredOffset(v, i);
      assert StoredAt(s.mem, cr3, v / 512, v + i) == x;
      StoreContained(s.mem, cr3, x, w, from, end);
    }
    SameTables(s.mem, s1.mem, cr3, 1, v / 512);
  }

  // ------------------------------------------------------- the loop's stages

  /** Before turn `i`: a stage of the plan with the loop's own table linked, and
      the whole plan once the loop has gone past that table. */
  ghost predicate LoopStage(r: Machine, s: Machine, cr3: nat, pml1: nat, v: nat, i: nat, end: nat) {
    && Stage(r, s, cr3, v, end)
    && Table(s.mem, cr3, 1, v / 512) == Some(pml1) && Table(r.mem, cr3, 1, v / 512) == Some(pml1)
    && (v % 512 + i > 512 ==> Agree(r, s, cr3))
  }

  /** The plan for lo .. end, carried out. */
  ghost predicate Plan(r: Machine, cr3: nat, lo: nat, end: nat) {
    lo < end && Stocked(r, cr3, lo, end) && Served(r.mem, cr3, lo, end)
  }

  lemma PlanLater(r: Machine, cr3: nat, lo: nat, lo': nat, end: nat)
    requires Plan(r, cr3, lo, end) && lo <= lo' < end
    ensures Plan(r, cr3, lo', end)
  {
    hide Stocked, Table;
    StockedLater(r, cr3, lo, lo', end);
  }

  /** A turn's store, if it leaves the tables alone, keeps the loop's stage. */
  lemma LoopStageStore(r: Machine, s: Machine, m': Mem, cr3: nat, pml1: nat, v: nat, i: nat, end: nat)
    requires LoopStage(r, s, cr3, pml1, v, i, end) && SameUpper(s.mem, m', cr3)
    ensures LoopStage(r, s.(mem := m'), cr3, pml1, v, i, end)
  {
    hide Table, Stage, SameUpper;
    StageStore(r, s, m', cr3, v, end);
    StageEnd(r, s, cr3, v, end);
    SamePage(v, v);
    SameTables(s.mem, m', cr3, 1, v / 512);
    if v % 512 + i > 512 {
      UpperTrans(r.mem, s.mem, m', cr3);
    }
  }

  lemma StageEnd(r: Machine, s: Machine, cr3: nat, lo: nat, end: nat)
    requires Stage(r, s, cr3, lo, end)
    ensures lo < end <= VPN_LIMIT
  {}

  /** When a turn goes past the table, the recursive call starts at a stage. */
  lemma PastStage(r: Machine, s: Machine, cr3: nat, pml1: nat, v: nat, i: nat, end: nat)
    requires Plan(r, cr3, v, end) && LoopStage(r, s, cr3, pml1, v, i, end) && v + i < end && v % 512 + i > 511
    ensures Stage(r, s, cr3, v + i, end)
  {
    hide Table, Stage, Stocked, Agree;
    if v % 512 + i == 512 {
      assert v + i == NextStart(v);
      StageNext(r, s, cr3, v, end);
    } else {
      WholeStage(r, s, cr3, v, v + i, end);
    }
  }

  /** With the plan carried out every turn is at its stage. */
  lemma WholeLoopStage(r: Machine, s: Machine, cr3: nat, pml1: nat, v: nat, i: nat, end: nat)
    requires Plan(r, cr3, v, end) && Agree(r, s, cr3) && Table(r.mem, cr3, 1, v / 512) == Some(pml1)
    ensures LoopStage(r, s, cr3, pml1, v, i, end)
  {
    hide Table, Stage, Stocked, SameUpper;
    WholeStage(r, s, cr3, v, v, end);
    StageEnd(r, s, cr3, v, end);
    SamePage(v, v);
    SameTables(r.mem, s.mem, cr3, 1, v / 512);
  }

  lemma LoopStageNext(r: Machine, s: Machine, cr3: nat, pml1: nat, v: nat, i: nat, end: nat)
    requires LoopStage(r, s, cr3, pml1, v, i, end) && v % 512 + i <= 511
    ensures LoopStage(r, s, cr3, pml1, v, i + 1, end)
  {
    hide Table, Stage, Agree;
  }

  /** At the loop's end the plan is carried out. */
  lemma LoopStageEnd(r: Machine, s: Machine, cr3: nat, pml1: nat, v: nat, n: nat)
    requires LoopStage(r, s, cr3, pml1, v, n, v + n)
    ensures Agree(r, s, cr3)
  {
    hide Table, Stage, Agree;
    if v % 512 + n <= 512 {
      assert v + n <= NextStart(v);
      StageNext(r, s, cr3, v, v + n);
    }
  }

  // ---------------------------------------------------- what is not written

  lemma TidyTrans(r: Machine, s: Machine, s1: Machine, s2: Machine, cr3: nat, lo: nat, lo': nat, end: nat)
    requires lo <= lo' && Tidy(r, s, s1, cr3, lo, end) && Tidy(r, s1, s2, cr3, lo', end)
    ensures Tidy(r, s, s2, cr3, lo, end)
  {
    hide Table, TableFrame, LoadByte;
    assert lo / 512 <= lo' / 512;
  }

  lemma TidySelf(r: Machine, s: Machine, cr3: nat, lo: nat, end: nat)
    ensures Tidy(r, s, s, cr3, lo, end)
  {}

  lemma AgreeFrames(s: Machine, s': Machine, cr3: nat)
    requires Agree(s, s', cr3)
    ensures forall g: nat | TableFrame(s', cr3, g) :: TableFrame(s, cr3, g)
  {
    hide Table, Key, SameUpper;
    SameTree(s.mem, s'.mem, cr3);
  }

  lemma OffStoresAgrees(m: Mem, m': Mem, cr3: nat, lo: nat, end: nat, x: nat)
    requires SameUpper(m, m', cr3) && OffStores(m, cr3, lo, end, x)
    ensures OffStores(m', cr3, lo, end, x)
  {
    hide Table, Key;
    SameTree(m, m', cr3);
  }

  lemma TidyLinking(r: Machine, s: Machine, s': Machine, cr3: nat, lo: nat, end: nat)
    requires Linking(s, s', cr3, lo, end)
    ensures Tidy(r, s, s', cr3, lo, end)
  {
    hide Evolved, TableFrame, LoadByte, SameLeaves, OffStores, Path;
    EvolvedFrames(s, s', cr3, Path(lo, end));
  }

  /** A turn's store writes in its table or past it. */
  lemma TidyStore(r: Machine, s: Machine, cr3: nat, pml1: nat, phys: nat, v: nat, i: nat, end: nat, flags: nat)
    requires Mappable(phys, i + 1, flags) && LoopStage(r, s, cr3, pml1, v, i, end) && v + i < end
    requires SameUpper(s.mem, AfterStore(s, pml1, phys, v, i, flags).mem, cr3)
    ensures Tidy(r, s, AfterStore(s, pml1, phys, v, i, flags), cr3, v, end)
  {
    hide Load64, Store64, Table, Stage, LoadByte, SameUpper;
    var a, w, s1 := pml1 + 8 * (v % 512 + i), phys + 4096 * i + flags, AfterStore(s, pml1, phys, v, i, flags);
    AgreeFrames(s, s1, cr3);
    StageEnd(r, s, cr3, v, end);
    SamePage(v, v);
    StoredOffset(v, i);
    assert TableFrame(s, cr3, pml1);
    forall x: nat | OffFrames(s, cr3, x) && OffStores(r.mem, cr3, v, end, x)
      ensures LoadByte(s1.mem, x) == LoadByte(s.mem, x)
    {
      Store64Byte(s.mem, a, w, x);
    }
  }

  // ------------------------------------- no harm done: all pages come out right

  lemma SameOutsideTrans(m: Mem, m1: Mem, m2: Mem, cr3: nat, lo: nat, lo': nat, end: nat)
    requires lo <= lo' && SameOutside(m, m1, cr3, lo, end) && SameOutside(m1, m2, cr3, lo', end)
    ensures SameOutside(m, m2, cr3, lo, end)
  {
    hide Leaf;
  }

  lemma PlanHits(r: Machine, s: Machine, cr3: nat, v: nat, x: nat, from: nat, end: nat)
    requires Stage(r, s, cr3, v, end) && HitsOnly(r.mem, cr3, x, from, end)
    ensures HitsOnly(s.mem, cr3, x, from, end)
  {
    hide Table, Key, Stage;
    StageTables(r, s, cr3, v, end);
    forall l: nat, k: nat, j: nat | Hit(s.mem, cr3, x, l, k, j)
      ensures Hit(r.mem, cr3, x, l, k, j)
    {}
  }

  /** The hits of the loop over v's table, under the weaker condition. */
  lemma ContainedHits(m: Mem, cr3: nat, v: nat, i: nat, end: nat)
    requires Contained(m, cr3, v, end) && v + i < end && v % 512 + i > 511
    ensures HitsOnly(m, cr3, StoredAt(m, cr3, v / 512, v + i), v + 1, end)
  {
    hide Hit, StoredAt;
    assert 512 * (v / 512) + 512 <= v + i && v + 1 <= 512 * (v / 512) + 512;
  }

  lemma ContainedLater(m: Mem, cr3: nat, v: nat, v': nat, end: nat)
    requires Contained(m, cr3, v, end) && v <= v'
    ensures Contained(m, cr3, v', end)
  {
    hide Hit, StoredAt;
    assert v / 512 <= v' / 512;
  }

  /** One call under the weaker condition: the tables come out as planned, pages
      outside the range keep their entries, and at least the first is mapped. */
  lemma {:induction false} MapContained(r: Machine, s: Machine, cr3: nat, phys: nat, v: nat, n: nat, flags: nat)
    requires Mappable(phys, n, flags) && Plan(r, cr3, v, v + n)
    requires Stage(r, s, cr3, v, v + n) && Contained(r.mem, cr3, v, v + n)
    ensures var s' := MapPages(s, cr3, phys, v, n, flags);
            && Agree(r, s', cr3) && Tidy(r, s, s', cr3, v, v + n)
            && SameOutside(s.mem, s'.mem, cr3, v, v + n) && Leaf(s'.mem, cr3, v) == phys + flags
    decreases n, n + 1
  {
    hide Load64, Store64, Table, Leaf, MapLoop, LeafTable, Contained, Stage, Plan, Agree, Tidy, SameUpper, Evolved, SameBytes;
    StageEnd(r, s, cr3, v, v + n);
    StageLeafTable(r, s, cr3, v, v + n);
    var (pml1, s0) := LeafTable(s, cr3, v);
    StageBounds(r, s0, cr3, v, v + n);
    var s1 := AfterStore(s0, pml1, phys, v, 0, flags);
    LoopStore(s0, cr3, pml1, phys, v, 0, v + n, flags, v);
    LoopStageStore(r, s0, s1.mem, cr3, pml1, v, 0, v + n);
    LoopStageNext(r, s1, cr3, pml1, v, 0, v + n);
    LoopContained(r, s1, cr3, pml1, phys, v, n, 1, flags);
    var s' := MapLoop(s1, cr3, pml1, phys, v, n, 1, flags);
    TidyLinking(r, s, s0, cr3, v, v + n);
    TidyStore(r, s0, cr3, pml1, phys, v, 0, v + n, flags);
    TidyTrans(r, s, s0, s1, cr3, v, v, v + n);
    TidyTrans(r, s, s1, s', cr3, v, v, v + n);
    assert MapPages(s, cr3, phys, v, n, flags) == s' by { LoopStarts(s, cr3, phys, v, n, flags); }
  }

  lemma LoopStarts(s: Machine, cr3: nat, phys: nat, v: nat, n: nat, flags: nat)
    requires Mappable(phys, n, flags) && 0 < n
    ensures var (pml1, s0) := LeafTable(s, cr3, v);
            MapPages(s, cr3, phys, v, n, flags)
              == MapLoop(AfterStore(s0, pml1, phys, v, 0, flags), cr3, pml1, phys, v, n, 1, flags)
  {
    hide Load64, Store64, LeafTable;
  }

  /** One turn of the loop. */
  function AfterTurn(s: Machine, cr3: nat, pml1: nat, phys: nat, v: nat, n: nat, i: nat, flags: nat): Machine
    requires Mappable(phys, n, flags) && i < n
  {
    var s1 := AfterStore(s, pml1, phys, v, i, flags);
    if v % 512 + i > 511 then MapPages(s1, cr3, phys + 4096 * i, v + i, n - i, flags) else s1
  }

  lemma {:induction false} LoopContained(r: Machine, s: Machine, cr3: nat, pml1: nat, phys: nat, v: nat, n: nat, i: nat, flags: nat)
    requires Mappable(phys, n, flags) && 1 <= i <= n && Plan(r, cr3, v, v + n)
    requires LoopStage(r, s, cr3, pml1, v, i, v + n) && Contained(r.mem, cr3, v, v + n)
    ensures var s' := MapLoop(s, cr3, pml1, phys, v, n, i, flags);
            && Agree(r, s', cr3) && Tidy(r, s, s', cr3, v, v + n)
            && SameOutside(s.mem, s'.mem, cr3, v + 1, v + n)
    decreases n, n - i
  {
    hide Load64, Store64, Table, Leaf, MapPages, Contained, HitsOnly, StoredAt, LoopStage, Plan, Agree, Tidy;
    if i == n {
      LoopStageEnd(r, s, cr3, pml1, v, n);
      TidySelf(r, s, cr3, v, v + n);
    } else {
      if v % 512 + i > 511 {
        ContainedHits(r.mem, cr3, v, i, v + n);
        ContainedLater(r.mem, cr3, v, v + i, v + n);
      }
      TurnContained(r, s, cr3, pml1, phys, v, n, i, flags, v + 1);
      var s2 := AfterTurn(s, cr3, pml1, phys, v, n, i, flags);
      LoopContained(r, s2, cr3, pml1, phys, v, n, i + 1, flags);
      var s' := MapLoop(s, cr3, pml1, phys, v, n, i, flags);
      SameOutsideTrans(s.mem, s2.mem, s'.mem, cr3, v + 1, v + 1, v + n);
      TidyTrans(r, s, s2, s', cr3, v, v, v + n);
    }
  }

  /** One turn whose own store hits at most the pages from .. end. */
  lemma {:induction false} TurnContained(r: Machine, s: Machine, cr3: nat, pml1: nat, phys: nat, v: nat, n: nat, i: nat, flags: nat, from: nat)
    requires Mappable(phys, n, flags) && i < n && Plan(r, cr3, v, v + n) && from <= v + i
    requires LoopStage(r, s, cr3, pml1, v, i, v + n)
    requires v % 512 + i > 511 ==> Contained(r.mem, cr3, v + i, v + n)
    requires v % 512 + i <= 511
          || HitsOnly(r.mem, cr3, StoredAt(r.mem, cr3, v / 512, v + i), from, v + n)
          || HitsOnly(s.mem, cr3, StoredAt(r.mem, cr3, v / 512, v + i), from, v + n)
    ensures var s2 := AfterTurn(s, cr3, pml1, phys, v, n, i, flags);
            && LoopStage(r, s2, cr3, pml1, v, i + 1, v + n) && Tidy(r, s, s2, cr3, v, v + n)
            && SameOutside(s.mem, s2.mem, cr3, from, v + n)
            && Leaf(s2.mem, cr3, v + i) == phys + 4096 * i + flags
            && (v % 512 + i <= 511 ==>
                  SameUpper(s.mem, s2.mem, cr3) && SameOutside(s.mem, s2.mem, cr3, v + i, v + i + 1))
    decreases n, n - i, 0
  {
    hide Load64, Store64, Table, Leaf, MapPages, Contained, HitsOnly, Plan, Agree, Stage, SameUpper, SameOutside, Tidy;
    StageBounds(r, s, cr3, v, v + n);
    if v % 512 + i > 511 && HitsOnly(r.mem, cr3, StoredAt(r.mem, cr3, v / 512, v + i), from, v + n) {
      PlanHits(r, s, cr3, v, StoredAt(r.mem, cr3, v / 512, v + i), from, v + n);
    }
    var s1 := AfterStore(s, pml1, phys, v, i, flags);
    LoopStore(s, cr3, pml1, phys, v, i, v + n, flags, from);
    LoopStageStore(r, s, s1.mem, cr3, pml1, v, i, v + n);
    TidyStore(r, s, cr3, pml1, phys, v, i, v + n, flags);
    if v % 512 + i > 511 {
      PastStage(r, s1, cr3, pml1, v, i, v + n);
      PlanLater(r, cr3, v, v + i, v + n);
      MapContained(r, s1, cr3, phys + 4096 * i, v + i, n - i, flags);
      var s2 := MapPages(s1, cr3, phys + 4096 * i, v + i, n - i, flags);
      WholeLoopStage(r, s2, cr3, pml1, v, i + 1, v + n);
      SameOutsideTrans(s.mem, s1.mem, s2.mem, cr3, from, v + i, v + n);
      TidyTrans(r, s, s1, s2, cr3, v, v + i, v + n);
    } else {
      LoopStageNext(r, s1, cr3, pml1, v, i, v + n);
    }
  }

  lemma HarmlessContained(m0: Mem, m: Mem, cr3: nat, v: nat, end: nat)
    requires HarmlessOn(m0, m, cr3, v, end)
    ensures Contained(m, cr3, NextStart(v), end)
  {
    hide Hit, StoredAt;
    PageOfTable(v / 512 + 1);
    forall k: nat, p: nat, l: nat, k': nat, j: nat
      | v / 512 < k && 512 * k + 512 <= p < end && Hit(m, cr3, StoredAt(m, cr3, k, p), l, k', j)
      ensures l == 1 && 512 * k + 512 <= 512 * k' + j < end
    {
      assert Standing(m0, m, v, k, p) == m;
    }
  }

  lemma PageOfTable(k: nat)
    ensures 512 * k / 512 == k && (512 * k + 1) / 512 == k && 512 * k % 512 == 0 && (512 * k + 1) % 512 == 1
  {}

  lemma HarmlessHits(m0: Mem, m: Mem, cr3: nat, v: nat, i: nat, end: nat)
    requires HarmlessOn(m0, m, cr3, v, end) && v + i < end && v % 512 + i > 511
    ensures HitsOnly(if v % 512 + i == 512 then m0 else m, cr3, StoredAt(m, cr3, v / 512, v + i), v + i, end)
  {
    hide Hit, StoredAt;
    assert 512 * (v / 512) + 512 <= v + i;
    assert v % 512 + i == 512 <==> v + i == NextStart(v);
    assert Standing(m0, m, v, v / 512, v + i) == if v % 512 + i == 512 then m0 else m;
  }

  lemma SameHits(m0: Mem, m: Mem, cr3: nat, x: nat, lo: nat, end: nat)
    requires SameUpper(m0, m, cr3) && HitsOnly(m0, cr3, x, lo, end)
    ensures HitsOnly(m, cr3, x, lo, end)
  {
    hide Table, Key;
    SameTree(m0, m, cr3);
    forall l: nat, k: nat, j: nat | Hit(m, cr3, x, l, k, j)
      ensures Hit(m0, cr3, x, l, k, j)
    {}
  }

  /** The rest of the loop over the first table maps all that is left. */
  lemma {:induction false} LoopHarmless(r: Machine, m0: Mem, s: Machine, cr3: nat, pml1: nat, phys: nat, v: nat, n: nat, i: nat, flags: nat)
    requires Mappable(phys, n, flags) && i <= n && Plan(r, cr3, v, v + n)
    requires LoopStage(r, s, cr3, pml1, v, i, v + n) && HarmlessOn(m0, r.mem, cr3, v, v + n)
    requires v % 512 + i <= 512 ==> SameUpper(m0, s.mem, cr3)
    ensures var s' := MapLoop(s, cr3, pml1, phys, v, n, i, flags);
            && Agree(r, s', cr3) && Tidy(r, s, s', cr3, v, v + n)
            && Mapped(s.mem, s'.mem, cr3, phys + 4096 * i, v + i, v + n, flags)
    decreases n - i
  {
    hide Load64, Store64, Table, Leaf, MapPages, Contained, HarmlessOn, HitsOnly, StoredAt, LoopStage, Plan, Agree, Tidy, SameUpper;
    if i == n {
      LoopStageEnd(r, s, cr3, pml1, v, n);
      TidySelf(r, s, cr3, v, v + n);
    } else {
      if v % 512 + i > 511 {
        HarmlessHits(m0, r.mem, cr3, v, i, v + n);
        if v % 512 + i == 512 {
          SameHits(m0, s.mem, cr3, StoredAt(r.mem, cr3, v / 512, v + i), v + i, v + n);
        }
        HarmlessContained(m0, r.mem, cr3, v, v + n);
        ContainedLater(r.mem, cr3, NextStart(v), v + i, v + n);
      }
      TurnContained(r, s, cr3, pml1, phys, v, n, i, flags, v + i);
      var s2 := AfterTurn(s, cr3, pml1, phys, v, n, i, flags);
      if v % 512 + i <= 511 {
        UpperTrans(m0, s.mem, s2.mem, cr3);
      }
      LoopHarmless(r, m0, s2, cr3, pml1, phys, v, n, i + 1, flags);
      TidyTrans(r, s, s2, MapLoop(s, cr3, pml1, phys, v, n, i, flags), cr3, v, v, v + n);
    }
  }

  // ------------------------------------------------------------ the theorem

  /** The tables are the planned ones, the pages of the range have their entries,
      and all other pages keep theirs. */
  ghost predicate MapsExactly(s: Machine, s': Machine, cr3: nat, phys: nat, v: nat, n: nat, flags: nat) {
    SameUpper(LinkAll(s, cr3, v, v + n).mem, s'.mem, cr3) && Mapped(s.mem, s'.mem, cr3, phys, v, v + n, flags)
  }

  lemma PlanIs(s: Machine, cr3: nat, lo: nat, end: nat)
    requires Stocked(s, cr3, lo, end) && lo < end
    ensures Plan(LinkAll(s, cr3, lo, end), cr3, lo, end) && Stage(LinkAll(s, cr3, lo, end), s, cr3, lo, end)
    ensures SameLeaves(s.mem, LinkAll(s, cr3, lo, end).mem, cr3) && end <= VPN_LIMIT
  {
    LinkAllLinks(s, cr3, lo, end);
  }

  /** How a call on `s` starts. */
  lemma CallStage(s: Machine, cr3: nat, v: nat, end: nat)
    requires Stocked(s, cr3, v, end) && v < end
    ensures var r := LinkAll(s, cr3, v, end);
            var (t, s1) := LeafTable(s, cr3, v);
            && Plan(r, cr3, v, end) && LoopStage(r, s1, cr3, t, v, 0, end)
            && Linking(s, s1, cr3, v, end) && SameLeaves(s.mem, s1.mem, cr3)
  {
    hide LeafTable, LinkAll, Stocked, Plan, Table, Evolved, SameBytes, Agree, SameLeaves;
    var r := LinkAll(s, cr3, v, end);
    PlanIs(s, cr3, v, end);
    StageLeafTable(r, s, cr3, v, end);
  }

  lemma HarmlessMaps(s: Machine, cr3: nat, phys: nat, v: nat, n: nat, flags: nat)
    requires Mappable(phys, n, flags) && 0 < n && Stocked(s, cr3, v, v + n) && Harmless(s, cr3, v, v + n)
    ensures var s' := MapPages(s, cr3, phys, v, n, flags);
            && MapsExactly(s, s', cr3, phys, v, n, flags) && s'.pool == LinkAll(s, cr3, v, v + n).pool
            && Tidy(LinkAll(s, cr3, v, v + n), s, s', cr3, v, v + n)
  {
    hide Load64, Stocked, LeafTable, MapLoop, LinkAll, HarmlessOn, LoopStage, Plan, Leaf, SameUpper, Tidy, Linking;
    var r := LinkAll(s, cr3, v, v + n);
    var (t, s1) := LeafTable(s, cr3, v);
    CallStage(s, cr3, v, v + n);
    assert SameUpper(s1.mem, s1.mem, cr3) by { SameUpperSelf(s1.mem, cr3); }
    LoopHarmless(r, s1.mem, s1, cr3, t, phys, v, n, 0, flags);
    TidyLinking(r, s, s1, cr3, v, v + n);
    TidyTrans(r, s, s1, MapPages(s, cr3, phys, v, n, flags), cr3, v, v, v + n);
  }

  lemma SameUpperSelf(m: Mem, cr3: nat)
    ensures SameUpper(m, m, cr3)
  {}

  lemma PlanAligned(r: Machine, cr3: nat, lo: nat, end: nat)
    requires Plan(r, cr3, lo, end)
    ensures Tree(r.mem, cr3) && PoolApart(r, cr3) && cr3 % 4096 == 0 && end <= VPN_LIMIT
  {}
}
