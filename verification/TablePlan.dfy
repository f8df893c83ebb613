/** All the tables a range needs, looked up or allocated before anything is
    mapped: the plan a call of MapVirtualPages follows while its stores past a
    table do not get in the way. */
module TablePlan {
  import opened Memory
  import opened Options
  import opened PageTables
  import opened TableLinking
  import opened PageMapping

  /** Every page of lo .. end has its tables. */
  ghost predicate Served(m: Mem, cr3: nat, lo: nat, end: nat) {
    forall u: nat | lo <= u < end :: Table(m, cr3, 1, u / 512).Some?
  }

  // ----------------------------------------------------- one table at a time

  lemma PoolHeadFree(s: Machine, cr3: nat, path: set<(nat, nat)>, l: nat, k: nat)
    requires Supplied(s, cr3, path) && (l, k) in path && (l, k) !in Tables(s.mem, cr3)
    ensures s.pool != []
  {
    hide Tables;
    SubsetSize(Tables(s.mem, cr3), Tables(s.mem, cr3) + path);
    assert (l, k) in Tables(s.mem, cr3) + path;
  }

  /** A step that may link tables for lo .. end but maps nothing. */
  ghost predicate Linking(s: Machine, s': Machine, cr3: nat, lo: nat, end: nat) {
    && Evolved(s, s', cr3, Path(lo, end))
    && SameLeaves(s.mem, s'.mem, cr3)
    && SameBytes(s, s', cr3)
  }

  /** One of the three "look up or allocate" steps. */
  lemma NextTableStep(s: Machine, cr3: nat, l: nat, k: nat, j: nat, lo: nat, end: nat)
    requires Stocked(s, cr3, lo, end)
    requires 2 <= l <= 4 && Key(l, k) && Table(s.mem, cr3, l, k).Some? && j < 512
    requires (l - 1, 512 * k + j) in Path(lo, end)
    ensures var (t, s') := NextTable(s, Table(s.mem, cr3, l, k).value, j);
            && Linking(s, s', cr3, lo, end)
            && Table(s'.mem, cr3, l - 1, 512 * k + j) == Some(t)
            && Stocked(s', cr3, lo, end)
  {
    hide Load64, Store64, Table, Key, Tree, Tables, Entry, TableFrame, Path;
    var t := Table(s.mem, cr3, l, k).value;
    ChildLink(s.mem, cr3, l, k, j);
    if Entry(s.mem, t, j) != 0 {
      LinkedChild(s.mem, cr3, l, k, j);
      EvolvedSelf(s, cr3, Path(lo, end));
    } else {
      UnlinkedTable(s.mem, cr3, l, k, j);
      TablesHas(s.mem, cr3, l - 1, 512 * k + j);
      PoolHeadFree(s, cr3, Path(lo, end), l - 1, 512 * k + j);
      LinkEvolved(s, cr3, l, k, j, Path(lo, end));
      LinkBytes(s, cr3, l, k, j);
    }
    EvolvedStocked(s, NextTable(s, t, j).1, cr3, lo, end);
  }

  lemma EvolvedSelf(s: Machine, cr3: nat, path: set<(nat, nat)>)
    requires Tree(s.mem, cr3) && PoolApart(s, cr3)
    ensures Evolved(s, s, cr3, path)
  {}

  lemma LinkedChild(m: Mem, cr3: nat, l: nat, k: nat, j: nat)
    requires 2 <= l <= 4 && Key(l, k) && j < 512 && Table(m, cr3, l, k).Some?
    requires TableEntry(Entry(m, Table(m, cr3, l, k).value, j))
    ensures Table(m, cr3, l - 1, 512 * k + j) == Some(FrameOf(Entry(m, Table(m, cr3, l, k).value, j)))
  {
    hide Load64, Entry, Present, LargePage;
    ChildKey(l, k, j);
    TableEntryTarget(Entry(m, Table(m, cr3, l, k).value, j));
  }

  lemma ChildLink(m: Mem, cr3: nat, l: nat, k: nat, j: nat)
    requires 2 <= l <= 4 && Key(l, k) && j < 512 && Table(m, cr3, l, k).Some?
    ensures Key(l - 1, 512 * k + j) && Link(m, cr3, l - 1, 512 * k + j) == Entry(m, Table(m, cr3, l, k).value, j)
  {
    hide Load64, Entry, Present, LargePage, Table;
    ChildKey(l, k, j);
  }

  lemma LinkEvolved(s: Machine, cr3: nat, l: nat, k: nat, j: nat, path: set<(nat, nat)>)
    requires Tree(s.mem, cr3) && PoolApart(s, cr3) && s.pool != []
    requires 2 <= l <= 4 && Key(l, k) && Table(s.mem, cr3, l, k).Some? && j < 512
    requires (l - 1, 512 * k + j) in path && Entry(s.mem, Table(s.mem, cr3, l, k).value, j) == 0
    ensures var (t, s') := NextTable(s, Table(s.mem, cr3, l, k).value, j);
            && Evolved(s, s', cr3, path)
            && Table(s'.mem, cr3, l - 1, 512 * k + j) == Some(t)
            && SameLeaves(s.mem, s'.mem, cr3)
  {
    hide Load64, Store64, Table, Key, Tree, Tables, Entry, Zero, Linked, Link, Large, LinksKept;
    var t := Table(s.mem, cr3, l, k).value;
    var (f, s') := NextTable(s, t, j);
    LinkFrame(s.mem, cr3, l, k, j, f);
    LinkedTree(s.mem, s'.mem, cr3, l, k, j, f);
    UnlinkedTable(s.mem, cr3, l, k, j);
    LinkedLinks(s.mem, s'.mem, cr3, l - 1, 512 * k + j, f);
    ChildKey(l, k, j);
    assert PoolApart(s', cr3) by {
      forall i | 0 <= i < |s'.pool|
        ensures OffTables(s'.mem, cr3, s'.pool[i], 4096)
      {
        assert s'.pool[i] == s.pool[i + 1];
        AlignedApart(s'.pool[i], f);
      }
    }
  }

  lemma LinkedLinks(m: Mem, m2: Mem, cr3: nat, l: nat, k: nat, f: nat)
    requires f % 4096 == 0 && f < PHYS_LIMIT && l < 4 && Link(m, cr3, l, k) == 0
    requires forall l': nat, k': nat | l' < 4 && Key(l', k') ::
      Link(m2, cr3, l', k') == if l' == l && k' == k then f + 3 else Link(m, cr3, l', k')
    ensures LinksKept(m, m2, cr3)
  {
    hide Link, TableEntry, Writes;
    FreshLink(f);
  }

  lemma LinkBytes(s: Machine, cr3: nat, l: nat, k: nat, j: nat)
    requires 2 <= l <= 4 && Key(l, k) && Table(s.mem, cr3, l, k).Some? && j < 512 && s.pool != []
    requires Entry(s.mem, Table(s.mem, cr3, l, k).value, j) == 0
    ensures SameBytes(s, NextTable(s, Table(s.mem, cr3, l, k).value, j).1, cr3)
  {
    hide Load64, Store64, Table, Key, Entry;
    var t := Table(s.mem, cr3, l, k).value;
    var f: nat := s.pool[0];
    assert TableFrame(s, cr3, t) && TableFrame(s, cr3, f);
    forall x: nat | OffFrames(s, cr3, x)
      ensures LoadByte(NextTable(s, t, j).1.mem, x) == LoadByte(s.mem, x)
    {
      Store64Byte(Zero(s.mem, f, 4096), t + 8 * j, f + 3, x);
    }
  }

  lemma LeafTableStep(s: Machine, cr3: nat, v: nat, end: nat)
    requires Stocked(s, cr3, v, end)
    ensures var (t, s') := LeafTable(s, cr3, v);
            && Linking(s, s', cr3, v, end)
            && Table(s'.mem, cr3, 1, v / 512) == Some(t)
            && Stocked(s', cr3, v, end)
  {
    PathHere(v, end);
    ThreeSteps(s, cr3, v, end, v / 512 / 512 / 512, v / 512 / 512, v / 512,
               v / 512 / 512 / 512 % 512, v / 512 / 512 % 512, v / 512 % 512);
  }

  lemma ThreeSteps(s: Machine, cr3: nat, v: nat, end: nat, k3: nat, k2: nat, k1: nat, j3: nat, j2: nat, j1: nat)
    requires Stocked(s, cr3, v, end) && j3 < 512 && j2 < 512 && j1 < 512
    requires Key(4, 0) && Key(3, k3) && Key(2, k2)
    requires k3 == j3 && k2 == 512 * k3 + j2 && k1 == 512 * k2 + j1
    requires (3, k3) in Path(v, end) && (2, k2) in Path(v, end) && (1, k1) in Path(v, end)
    ensures var (pml3, s3) := NextTable(s, cr3, j3);
            var (pml2, s2) := NextTable(s3, pml3, j2);
            var (pml1, s1) := NextTable(s2, pml2, j1);
            && Linking(s, s1, cr3, v, end)
            && Table(s1.mem, cr3, 1, k1) == Some(pml1)
            && Stocked(s1, cr3, v, end)
  {
    hide Table, Key, Path, Stocked, Linking, NextTable;
    RootTable(s.mem, cr3);
    var (pml3, s3) := NextTable(s, cr3, j3);
    NextTableStep(s, cr3, 4, 0, j3, v, end);
    var (pml2, s2) := NextTable(s3, pml3, j2);
    NextTableStep(s3, cr3, 3, k3, j2, v, end);
    NextTableStep(s2, cr3, 2, k2, j1, v, end);
    LinkingTrans(s, s3, s2, cr3, v, end);
    LinkingTrans(s, s2, NextTable(s2, pml2, j1).1, cr3, v, end);
  }

  lemma LinkingTrans(s: Machine, s1: Machine, s2: Machine, cr3: nat, lo: nat, end: nat)
    requires Linking(s, s1, cr3, lo, end) && Linking(s1, s2, cr3, lo, end)
    ensures Linking(s, s2, cr3, lo, end)
  {
    hide Path, Evolved, SameBytes, Leaf;
    EvolvedTrans(s, s1, s2, cr3, Path(lo, end));
    SameBytesTrans(s, s1, s2, cr3, Path(lo, end));
  }

  lemma RootTable(m: Mem, cr3: nat)
    ensures Table(m, cr3, 4, 0) == Some(cr3)
  {}

  lemma PathHere(v: nat, end: nat)
    requires v < VPN_LIMIT && v <= end
    ensures var k3, k2, k1 := v / 512 / 512 / 512, v / 512 / 512, v / 512;
            && Key(4, 0) && Key(3, k3) && Key(2, k2) && Key(1, k1)
            && k3 == k3 % 512 && k2 == 512 * k3 + k2 % 512 && k1 == 512 * k2 + k1 % 512
            && (3, k3) in Path(v, end) && (2, k2) in Path(v, end) && (1, k1) in Path(v, end)
  {
    assert forall l :: Prefix(v, l) <= Prefix(Last(v, end), l);
  }

  // ---------------------------------------------------------- all the tables

  /** The first page after the level-1 table of page `v`. */
  function NextStart(v: nat): nat { 512 * (v / 512) + 512 }

  /** The tables for the pages lo .. end, one level-1 table after the other. */
  function LinkAll(s: Machine, cr3: nat, lo: nat, end: nat): Machine
    decreases end - lo
  {
    if lo >= end then s else LinkAll(LeafTable(s, cr3, lo).1, cr3, NextStart(lo), end)
  }

  /** Planning links what is missing and maps nothing. */
  lemma {:induction false} LinkAllLinks(s: Machine, cr3: nat, lo: nat, end: nat)
    requires Stocked(s, cr3, lo, end) && lo < end
    ensures var r := LinkAll(s, cr3, lo, end);
            Linking(s, r, cr3, lo, end) && Stocked(r, cr3, lo, end) && Served(r.mem, cr3, lo, end)
    decreases end - lo
  {
    hide LeafTable, Stocked, Linking, Table, Key;
    var s1, next := LeafTable(s, cr3, lo).1, NextStart(lo);
    var r := LinkAll(s1, cr3, next, end);
    LeafTableStep(s, cr3, lo, end);
    LinkingSelf(s1, cr3, lo, end);
    if next < end {
      StockedLater(s1, cr3, lo, next, end);
      LinkAllLinks(s1, cr3, next, end);
      LinkingEarlier(s1, r, cr3, lo, next, end);
      LinkingTrans(s, s1, r, cr3, lo, end);
      LinkingStocked(s1, r, cr3, lo, end);
    } else {
      assert r == s1;
    }
    LinkingKeeps(s1, r, cr3, lo, end, lo);
    forall u: nat | lo <= u < end
      ensures Table(r.mem, cr3, 1, u / 512).Some?
    {
      if u < next {
        assert u / 512 == lo / 512;
      }
    }
  }

  lemma LinkingSelf(s: Machine, cr3: nat, lo: nat, end: nat)
    requires Stocked(s, cr3, lo, end)
    ensures Linking(s, s, cr3, lo, end)
  {
    hide Path, Leaf, LoadByte;
    EvolvedSelf(s, cr3, Path(lo, end));
  }

  lemma LinkingStocked(s: Machine, s': Machine, cr3: nat, lo: nat, end: nat)
    requires Stocked(s, cr3, lo, end) && Linking(s, s', cr3, lo, end)
    ensures Stocked(s', cr3, lo, end)
  {
    hide Stocked, Evolved, SameBytes, SameLeaves;
    EvolvedStocked(s, s', cr3, lo, end);
  }

  lemma LinkingEarlier(s: Machine, s': Machine, cr3: nat, lo: nat, lo': nat, end: nat)
    requires lo <= lo' < end && Linking(s, s', cr3, lo', end)
    ensures Linking(s, s', cr3, lo, end)
  {
    hide Evolved, SameBytes, SameLeaves, Path;
    PathLater(lo, lo', end);
    EvolvedWider(s, s', cr3, Path(lo', end), Path(lo, end));
  }

  lemma LinkingKeeps(s: Machine, s': Machine, cr3: nat, lo: nat, end: nat, v: nat)
    requires Linking(s, s', cr3, lo, end) && v < VPN_LIMIT && Table(s.mem, cr3, 1, v / 512).Some?
    ensures Table(s'.mem, cr3, 1, v / 512) == Table(s.mem, cr3, 1, v / 512)
  {
    hide Table, Key, Tree, PoolApart, SameBytes, SameLeaves;
    SamePage(v, v);
  }

  // ------------------------------------------- only tables and frames matter

  /** The same tables and the same free frames. */
  ghost predicate Agree(s: Machine, s': Machine, cr3: nat) {
    s'.pool == s.pool && SameUpper(s.mem, s'.mem, cr3)
  }

  lemma UpperTrans(m: Mem, m1: Mem, m2: Mem, cr3: nat)
    requires SameUpper(m, m1, cr3) && SameUpper(m1, m2, cr3)
    ensures SameUpper(m, m2, cr3)
  {
    hide Load64, Entry, Table, Key;
    SameTree(m, m1, cr3);
  }

  lemma AgreeTrans(s: Machine, s1: Machine, s2: Machine, cr3: nat)
    requires Agree(s, s1, cr3) && Agree(s1, s2, cr3)
    ensures Agree(s, s2, cr3)
  {
    UpperTrans(s.mem, s1.mem, s2.mem, cr3);
  }

  lemma AgreeApart(s: Machine, s': Machine, cr3: nat)
    requires Tree(s.mem, cr3) && PoolApart(s, cr3) && Agree(s, s', cr3)
    ensures Tree(s'.mem, cr3) && PoolApart(s', cr3)
  {
    hide Table, Key, Tree;
    SameTree(s.mem, s'.mem, cr3);
    forall i | 0 <= i < |s'.pool|
      ensures OffTables(s'.mem, cr3, s'.pool[i], 4096)
    {
      assert OffTables(s.mem, cr3, s.pool[i], 4096);
    }
  }

  /** The step from one table to the next is the same for machines that agree. */
  lemma NextAgrees(s1: Machine, s2: Machine, cr3: nat, l: nat, k: nat, j: nat)
    requires Tree(s1.mem, cr3) && PoolApart(s1, cr3) && Agree(s1, s2, cr3)
    requires 2 <= l <= 4 && Key(l, k) && j < 512 && Table(s1.mem, cr3, l, k).Some?
    requires Entry(s1.mem, Table(s1.mem, cr3, l, k).value, j) != 0 || s1.pool != []
    ensures var t := Table(s1.mem, cr3, l, k).value;
            && NextTable(s2, t, j).0 == NextTable(s1, t, j).0
            && Agree(NextTable(s1, t, j).1, NextTable(s2, t, j).1, cr3)
  {
    hide Load64, Store64, Table, Key, Tree, Entry, Zero, Linked;
    var t := Table(s1.mem, cr3, l, k).value;
    if Entry(s1.mem, t, j) == 0 {
      var f := s1.pool[0];
      AgreeApart(s1, s2, cr3);
      SameTree(s1.mem, s2.mem, cr3);
      LinkFrame(s1.mem, cr3, l, k, j, f);
      LinkFrame(s2.mem, cr3, l, k, j, f);
      LinkedAgree(s1.mem, s2.mem, NextTable(s1, t, j).1.mem, NextTable(s2, t, j).1.mem, cr3, l, k, j, f);
    }
  }

  lemma LinkedAgree(m1: Mem, m2: Mem, m1': Mem, m2': Mem, cr3: nat, l: nat, k: nat, j: nat, f: nat)
    requires Tree(m1, cr3) && OffTables(m1, cr3, f, 4096) && SameUpper(m1, m2, cr3)
    requires Linked(m1, m1', cr3, l, k, j, f) && Linked(m2, m2', cr3, l, k, j, f)
    ensures SameUpper(m1', m2', cr3)
  {
    hide Load64, Table, Key, Tree, Entry;
    SameTree(m1, m2, cr3);
    LinkedTree(m1, m1', cr3, l, k, j, f);
    forall l': nat, k': nat, j': nat | 2 <= l' && Key(l', k') && Table(m1', cr3, l', k').Some? && j' < 512
      ensures Entry(m2', Table(m1', cr3, l', k').value, j') == Entry(m1', Table(m1', cr3, l', k').value, j')
    {
      if !(l' == l - 1 && k' == 512 * k + j) && (l', k', j') != (l, k, j) {
        assert Table(m1', cr3, l', k') == Table(m1, cr3, l', k') == Table(m2, cr3, l', k');
      }
    }
  }

  lemma LeafTableAgrees(s1: Machine, s2: Machine, cr3: nat, v: nat, end: nat)
    requires Stocked(s1, cr3, v, end) && Agree(s1, s2, cr3)
    ensures LeafTable(s2, cr3, v).0 == LeafTable(s1, cr3, v).0
    ensures Agree(LeafTable(s1, cr3, v).1, LeafTable(s2, cr3, v).1, cr3)
  {
    PathHere(v, end);
    ThreeAgree(s1, s2, cr3, v, end, v / 512 / 512 / 512, v / 512 / 512, v / 512,
               v / 512 / 512 / 512 % 512, v / 512 / 512 % 512, v / 512 % 512);
  }

  lemma StepAgrees(s1: Machine, s2: Machine, cr3: nat, l: nat, k: nat, j: nat, lo: nat, end: nat)
    requires Stocked(s1, cr3, lo, end) && Agree(s1, s2, cr3)
    requires 2 <= l <= 4 && Key(l, k) && Table(s1.mem, cr3, l, k).Some? && j < 512
    requires (l - 1, 512 * k + j) in Path(lo, end)
    ensures var t := Table(s1.mem, cr3, l, k).value;
            var (t', s1') := NextTable(s1, t, j);
            && NextTable(s2, t, j).0 == t'
            && Agree(s1', NextTable(s2, t, j).1, cr3)
            && Stocked(s1', cr3, lo, end)
            && Table(s1'.mem, cr3, l - 1, 512 * k + j) == Some(t')
  {
    hide Load64, Store64, Table, Key, Tree, Tables, Entry, Path, NextTable, Agree, PoolApart, Linking;
    NextTableStep(s1, cr3, l, k, j, lo, end);
    if Entry(s1.mem, Table(s1.mem, cr3, l, k).value, j) == 0 {
      UnlinkedTable(s1.mem, cr3, l, k, j);
      TablesHas(s1.mem, cr3, l - 1, 512 * k + j);
      PoolHeadFree(s1, cr3, Path(lo, end), l - 1, 512 * k + j);
    }
    NextAgrees(s1, s2, cr3, l, k, j);
  }

  lemma ThreeAgree(s1: Machine, s2: Machine, cr3: nat, v: nat, end: nat, k3: nat, k2: nat, k1: nat, j3: nat, j2: nat, j1: nat)
    requires Stocked(s1, cr3, v, end) && Agree(s1, s2, cr3) && j3 < 512 && j2 < 512 && j1 < 512
    requires Key(4, 0) && Key(3, k3) && Key(2, k2)
    requires k3 == j3 && k2 == 512 * k3 + j2 && k1 == 512 * k2 + j1
    requires (3, k3) in Path(v, end) && (2, k2) in Path(v, end) && (1, k1) in Path(v, end)
    ensures var (pml3, a3) := NextTable(s1, cr3, j3);
            var (pml2, a2) := NextTable(a3, pml3, j2);
            var (pml1, a1) := NextTable(a2, pml2, j1);
            var (qml3, b3) := NextTable(s2, cr3, j3);
            var (qml2, b2) := NextTable(b3, qml3, j2);
            var (qml1, b1) := NextTable(b2, qml2, j1);
            qml1 == pml1 && Agree(a1, b1, cr3)
  {
    hide Table, Key, Path, Stocked, Agree, NextTable;
    RootTable(s1.mem, cr3);
    var (pml3, a3) := NextTable(s1, cr3, j3);
    StepAgrees(s1, s2, cr3, 4, 0, j3, v, end);
    var b3 := NextTable(s2, cr3, j3).1;
    var (pml2, a2) := NextTable(a3, pml3, j2);
    StepAgrees(a3, b3, cr3, 3, k3, j2, v, end);
    StepAgrees(a2, NextTable(b3, pml3, j2).1, cr3, 2, k2, j1, v, end);
  }

  lemma {:induction false} LinkAllAgrees(s1: Machine, s2: Machine, cr3: nat, lo: nat, end: nat)
    requires Stocked(s1, cr3, lo, end) && Agree(s1, s2, cr3)
    ensures Agree(LinkAll(s1, cr3, lo, end), LinkAll(s2, cr3, lo, end), cr3)
    decreases end - lo
  {
    hide Stocked, Agree, LeafTable, Linking;
    if lo < end {
      var a, b := LeafTable(s1, cr3, lo).1, LeafTable(s2, cr3, lo).1;
      LeafTableStep(s1, cr3, lo, end);
      LeafTableAgrees(s1, s2, cr3, lo, end);
      if NextStart(lo) < end {
        StockedLater(a, cr3, lo, NextStart(lo), end);
        LinkAllAgrees(a, b, cr3, NextStart(lo), end);
      }
    }
  }

  // ------------------------------------------------------ stages of the plan

  /** Linking the rest of the tables for lo .. end from `s` gives the plan `r`. */
  ghost predicate Stage(r: Machine, s: Machine, cr3: nat, lo: nat, end: nat) {
    lo < end && Stocked(s, cr3, lo, end) && Agree(r, LinkAll(s, cr3, lo, end), cr3)
  }

  lemma StageBounds(r: Machine, s: Machine, cr3: nat, lo: nat, end: nat)
    requires Stage(r, s, cr3, lo, end)
    ensures lo < end <= VPN_LIMIT && Tree(s.mem, cr3) && PoolApart(s, cr3) && cr3 % 4096 == 0
  {}

  /** All tables of a stage are tables of the plan. */
  lemma StageTables(r: Machine, s: Machine, cr3: nat, lo: nat, end: nat)
    requires Stage(r, s, cr3, lo, end)
    ensures forall l: nat, k: nat | Key(l, k) && Table(s.mem, cr3, l, k).Some? ::
      Table(r.mem, cr3, l, k) == Table(s.mem, cr3, l, k)
    ensures Served(r.mem, cr3, lo, end)
  {
    hide Table, Key, Stocked, PoolApart, Tree, SameBytes, SameLeaves;
    var s' := LinkAll(s, cr3, lo, end);
    LinkAllLinks(s, cr3, lo, end);
    SameTree(r.mem, s'.mem, cr3);
    forall u: nat | lo <= u < end
      ensures Table(r.mem, cr3, 1, u / 512).Some?
    {
      StageRange(s, cr3, lo, end);
      SamePage(u, u);
    }
  }

  lemma StageRange(s: Machine, cr3: nat, lo: nat, end: nat)
    requires Stocked(s, cr3, lo, end)
    ensures lo <= end <= VPN_LIMIT && lo < VPN_LIMIT
  {}

  /** A change that leaves the tables of a stage alone leads to a stage. */
  lemma StageStore(r: Machine, s: Machine, m': Mem, cr3: nat, lo: nat, end: nat)
    requires Stage(r, s, cr3, lo, end) && SameUpper(s.mem, m', cr3)
    ensures Stage(r, s.(mem := m'), cr3, lo, end)
  {
    hide LinkAll, Path, Table, Key, SameUpper;
    var s' := s.(mem := m');
    StoreEvolved(s, m', cr3, Path(lo, end));
    EvolvedStocked(s, s', cr3, lo, end);
    LinkAllAgrees(s, s', cr3, lo, end);
    AgreeTrans(r, LinkAll(s, cr3, lo, end), LinkAll(s', cr3, lo, end), cr3);
  }

  /** Nothing is allocated when the tables exist. */
  lemma TablesThere(s: Machine, cr3: nat, v: nat, end: nat)
    requires Stocked(s, cr3, v, end) && Table(s.mem, cr3, 1, v / 512).Some?
    ensures LeafTable(s, cr3, v) == (Table(s.mem, cr3, 1, v / 512).value, s)
  {
    hide Load64, Entry, Stocked, Table;
    TopPrefix(v, s, cr3, end);
    UpperSome(s.mem, cr3, v / 512);
    UpperSome(s.mem, cr3, v / 512 / 512);
    RootTable(s.mem, cr3);
    NextThere(s, cr3, v, end, 3, v / 512 / 512 / 512);
    NextThere(s, cr3, v, end, 2, v / 512 / 512);
    NextThere(s, cr3, v, end, 1, v / 512);
  }

  lemma UpperSome(m: Mem, cr3: nat, k: nat)
    ensures Table(m, cr3, 1, k).Some? ==> Table(m, cr3, 2, k / 512).Some?
    ensures Table(m, cr3, 2, k).Some? ==> Table(m, cr3, 3, k / 512).Some?
  {
    hide Load64;
  }

  /** A table on the path that is there is found and not allocated. */
  lemma NextThere(s: Machine, cr3: nat, v: nat, end: nat, l: nat, k: nat)
    requires Stocked(s, cr3, v, end) && 1 <= l <= 3 && k == Prefix(v, l)
    requires Table(s.mem, cr3, l, k).Some? && Table(s.mem, cr3, l + 1, k / 512).Some?
    ensures NextTable(s, Table(s.mem, cr3, l + 1, k / 512).value, k % 512) == (Table(s.mem, cr3, l, k).value, s)
  {
    hide Load64, Path, PageBase, FrameOf, LargePage;
    PathHere(v, end);
    ZeroAbsent();
    var e := Link(s.mem, cr3, l, k);
    assert e != 0 && TableEntry(e);
    TableEntryTarget(e);
  }

  lemma TopPrefix(v: nat, s: Machine, cr3: nat, end: nat)
    requires Stocked(s, cr3, v, end)
    ensures v < VPN_LIMIT && Key(1, v / 512) && v / 512 / 512 / 512 / 512 == 0
    ensures v / 512 / 512 / 512 % 512 == v / 512 / 512 / 512
  {}

  /** A call's look-up of its own tables leads to a stage of the same plan. */
  lemma StageLeafTable(r: Machine, s: Machine, cr3: nat, lo: nat, end: nat)
    requires Stage(r, s, cr3, lo, end)
    ensures var (t, s1) := LeafTable(s, cr3, lo);
            && Stage(r, s1, cr3, lo, end) && Linking(s, s1, cr3, lo, end)
            && Table(s1.mem, cr3, 1, lo / 512) == Some(t) && Table(r.mem, cr3, 1, lo / 512) == Some(t)
  {
    hide LeafTable, Stocked, Agree, Linking, Table;
    var (t, s1) := LeafTable(s, cr3, lo);
    LeafTableStep(s, cr3, lo, end);
    StageRange(s, cr3, lo, end);
    TablesThere(s1, cr3, lo, end);
    assert LinkAll(s1, cr3, lo, end) == LinkAll(s, cr3, lo, end);
    StageTables(r, s1, cr3, lo, end);
    SamePage(lo, lo);
  }

  /** With the first level-1 table linked, what is left is to link the others. */
  lemma StageNext(r: Machine, s: Machine, cr3: nat, lo: nat, end: nat)
    requires Stage(r, s, cr3, lo, end) && Table(s.mem, cr3, 1, lo / 512).Some?
    ensures NextStart(lo) < end ==> Stage(r, s, cr3, NextStart(lo), end)
    ensures end <= NextStart(lo) ==> Agree(r, s, cr3)
  {
    hide LeafTable, Stocked, Agree, Table;
    StageRange(s, cr3, lo, end);
    TablesThere(s, cr3, lo, end);
    if NextStart(lo) < end {
      StockedLater(s, cr3, lo, NextStart(lo), end);
    }
  }

  // -------------------------------------------------------- the whole plan

  lemma {:induction false} AllThere(s: Machine, cr3: nat, lo: nat, end: nat)
    requires Stocked(s, cr3, lo, end) && Served(s.mem, cr3, lo, end)
    ensures LinkAll(s, cr3, lo, end) == s
    decreases end - lo
  {
    hide LeafTable, Table, Stocked;
    if lo < end {
      TablesThere(s, cr3, lo, end);
      if NextStart(lo) < end {
        StockedLater(s, cr3, lo, NextStart(lo), end);
        AllThere(s, cr3, NextStart(lo), end);
      }
    }
  }

  lemma AgreeServed(r: Machine, s: Machine, cr3: nat, lo: nat, end: nat)
    requires Agree(r, s, cr3) && Served(r.mem, cr3, lo, end) && end <= VPN_LIMIT
    ensures Served(s.mem, cr3, lo, end)
  {
    hide Table, SameUpper;
    forall u: nat | lo <= u < end
      ensures Table(s.mem, cr3, 1, u / 512).Some?
    {
      SamePage(u, u);
      SameTables(r.mem, s.mem, cr3, 1, u / 512);
    }
  }

  /** A machine that has all planned tables is a stage for every part of the range. */
  lemma WholeStage(r: Machine, s: Machine, cr3: nat, lo: nat, v: nat, end: nat)
    requires Stocked(r, cr3, lo, end) && Served(r.mem, cr3, lo, end) && Agree(r, s, cr3) && lo <= v < end
    ensures Stage(r, s, cr3, v, end)
  {
    hide Stocked, Table, SameUpper, LinkAll, Path;
    StageRange(r, cr3, lo, end);
    AgreeServed(r, s, cr3, lo, end);
    StockedLater(r, cr3, lo, v, end);
    AgreeStocked(r, s, cr3, v, end);
    AllThere(s, cr3, v, end);
  }

  lemma AgreeStocked(r: Machine, s: Machine, cr3: nat, lo: nat, end: nat)
    requires Stocked(r, cr3, lo, end) && Agree(r, s, cr3)
    ensures Stocked(s, cr3, lo, end)
  {
    hide Path, Table, Key, SameUpper;
    StoreEvolved(r, s.mem, cr3, Path(lo, end));
    EvolvedStocked(r, s, cr3, lo, end);
  }
}
