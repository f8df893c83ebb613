/** When the words MapVirtualPages stores past a level-1 table do harm: exactly
    when one of them lands on a table entry that no later store puts right. */
module SpillExact {
  import opened Words
  import opened Memory
  import opened Options
  import opened PageTables
  import opened PageMapping
  import opened TablePlan
  import opened MappingProof
  import opened MappingTheorems

  // -------------------------------------------- harm done stays: words persist

  /** An entry that sends a page into the block b .. c. */
  predicate Names(e: Word, b: nat, c: nat, flags: nat) {
    e % 4096 == flags && b + flags <= e < c + flags
  }

  predicate Apart(f: nat, a: nat) { a + 8 <= f || f + 4096 <= a }

  /** No frame the firmware may still hand out, nor the page at 0 that stands for
      a failed allocation, holds the word at `a`. */
  predicate Beyond(pool: seq<Frame>, a: nat) {
    Apart(0, a) && forall f | f in pool :: Apart(f, a)
  }

  lemma EntryNames(phys: nat, i: nat, flags: nat, b: nat, c: nat)
    requires phys % 4096 == 0 && flags < 4096 && b <= phys + 4096 * i < c
    requires phys + 4096 * i + flags < 0x1_0000_0000_0000_0000
    ensures Names(phys + 4096 * i + flags, b, c, flags)
  {
    LowFlags(phys / 4096 + i, flags);
    assert phys + 4096 * i + flags == 4096 * (phys / 4096 + i) + flags;
  }

  lemma LowFlags(q: nat, flags: nat)
    requires flags < 4096
    ensures (4096 * q + flags) % 4096 == flags
  {}

  lemma StoreNames(m: Mem, x: nat, w: Word, a: nat, b: nat, c: nat, flags: nat)
    requires x % 8 == 0 && a % 8 == 0 && Names(w, b, c, flags)
    requires x == a || Names(Load64(m, a), b, c, flags)
    ensures Names(Load64(Store64(m, x, w), a), b, c, flags)
  {
    hide Load64, Store64, Names;
    if x == a {
      Store64Load64(m, x, w);
    } else {
      WordsApart(x, a);
      Store64Other(m, x, w, a);
    }
  }

  lemma FrameAligned(e: Word)
    ensures FrameOf(e) % 4096 == 0
  {}

  /** From `s` to `s'`, a word at `a` that names a page of the block still does. */
  predicate Keeps(s: Machine, s': Machine, a: nat, b: nat, c: nat, flags: nat) {
    Beyond(s'.pool, a) && (Names(Load64(s.mem, a), b, c, flags) ==> Names(Load64(s'.mem, a), b, c, flags))
  }

  lemma NextKeeps(s: Machine, table: nat, j: nat, a: nat, b: nat, c: nat, flags: nat)
    requires flags % 2 == 1 && table % 4096 == 0 && a % 8 == 0 && Beyond(s.pool, a)
    ensures var (t, s') := NextTable(s, table, j);
            t % 4096 == 0 && Keeps(s, s', a, b, c, flags)
  {
    hide Load64, Store64, Zero, FrameOf;
    if Entry(s.mem, table, j) == 0 {
      var f: Frame := if s.pool == [] then 0 else s.pool[0];
      if Names(Load64(s.mem, a), b, c, flags) {
        assert Apart(f, a);
        Aligned8(table, j);
        assert table + 8 * j != a;
        WordsApart(table + 8 * j, a);
        ZeroOther(s.mem, f, 4096, a);
        Store64Other(Zero(s.mem, f, 4096), table + 8 * j, f + 3, a);
      }
    } else {
      FrameAligned(Entry(s.mem, table, j));
    }
  }

  lemma LeafTableKeeps(s: Machine, cr3: nat, v: nat, a: nat, b: nat, c: nat, flags: nat)
    requires flags % 2 == 1 && cr3 % 4096 == 0 && a % 8 == 0 && Beyond(s.pool, a)
    ensures var (t, s') := LeafTable(s, cr3, v);
            t % 4096 == 0 && Keeps(s, s', a, b, c, flags)
  {
    hide NextTable, Names, Beyond, Load64;
    var (pml3, s3) := NextTable(s, cr3, v / 512 / 512 / 512 % 512);
    NextKeeps(s, cr3, v / 512 / 512 / 512 % 512, a, b, c, flags);
    var (pml2, s2) := NextTable(s3, pml3, v / 512 / 512 % 512);
    NextKeeps(s3, pml3, v / 512 / 512 % 512, a, b, c, flags);
    NextKeeps(s2, pml2, v / 512 % 512, a, b, c, flags);
  }

  /** Whatever state the tables are in: a word that names a page of the block the
      call maps names one afterwards. */
  lemma {:induction false} MapPersists(s: Machine, cr3: nat, phys: nat, v: nat, n: nat, flags: nat, a: nat, b: nat, c: nat)
    requires Mappable(phys, n, flags) && flags % 2 == 1 && b <= phys && phys + 4096 * n <= c
    requires cr3 % 4096 == 0 && a % 8 == 0 && Beyond(s.pool, a)
    ensures Keeps(s, MapPages(s, cr3, phys, v, n, flags), a, b, c, flags)
    decreases n, n + 1
  {
    hide Names, Beyond, Load64, MapLoop, LeafTable;
    var (pml1, s1) := LeafTable(s, cr3, v);
    LeafTableKeeps(s, cr3, v, a, b, c, flags);
    LoopPersists(s1, cr3, pml1, phys, v, n, 0, flags, a, b, c);
  }

  lemma {:induction false} LoopPersists(s: Machine, cr3: nat, pml1: nat, phys: nat, v: nat, n: nat, i: nat, flags: nat, a: nat, b: nat, c: nat)
    requires Mappable(phys, n, flags) && i <= n && flags % 2 == 1 && b <= phys + 4096 * i && phys + 4096 * n <= c
    requires cr3 % 4096 == 0 && pml1 % 4096 == 0 && a % 8 == 0 && Beyond(s.pool, a)
    ensures Keeps(s, MapLoop(s, cr3, pml1, phys, v, n, i, flags), a, b, c, flags)
    decreases n, n - i
  {
    hide Names, Beyond, Load64, Store64, MapPages;
    if i < n {
      var s1 := AfterStore(s, pml1, phys, v, i, flags);
      StorePersists(s, pml1, phys, v, i, flags, a, b, c);
      var s2 := s1;
      if v % 512 + i > 511 {
        MapPersists(s1, cr3, phys + 4096 * i, v + i, n - i, flags, a, b, c);
        s2 := MapPages(s1, cr3, phys + 4096 * i, v + i, n - i, flags);
      }
      LoopPersists(s2, cr3, pml1, phys, v, n, i + 1, flags, a, b, c);
    }
  }

  lemma StorePersists(s: Machine, pml1: nat, phys: nat, v: nat, i: nat, flags: nat, a: nat, b: nat, c: nat)
    requires Mappable(phys, i + 1, flags) && b <= phys + 4096 * i < c
    requires pml1 % 4096 == 0 && a % 8 == 0 && Beyond(s.pool, a)
    ensures Keeps(s, AfterStore(s, pml1, phys, v, i, flags), a, b, c, flags)
    ensures a == pml1 + 8 * (v % 512 + i) ==> Names(Load64(AfterStore(s, pml1, phys, v, i, flags).mem, a), b, c, flags)
  {
    hide Names, Beyond, Load64, Store64;
    EntryNames(phys, i, flags, b, c);
    Aligned8(pml1, v % 512 + i);
    var x, w := pml1 + 8 * (v % 512 + i), phys + 4096 * i + flags;
    if x == a || Names(Load64(s.mem, a), b, c, flags) {
      StoreNames(s.mem, x, w, a, b, c, flags);
    }
  }

  /** A loop leaves, at every place it stores to, a word for that page or a later
      one. */
  lemma {:induction false} LoopLeaves(s: Machine, cr3: nat, pml1: nat, phys: nat, v: nat, n: nat, i: nat, p: nat, flags: nat)
    requires Mappable(phys, n, flags) && i <= p < n && flags % 2 == 1
    requires cr3 % 4096 == 0 && pml1 % 4096 == 0 && Beyond(s.pool, pml1 + 8 * (v % 512 + p))
    ensures Names(Load64(MapLoop(s, cr3, pml1, phys, v, n, i, flags).mem, pml1 + 8 * (v % 512 + p)),
                  phys + 4096 * p, phys + 4096 * n, flags)
    decreases p - i
  {
    hide Names, Beyond, Load64, Store64, MapPages;
    var a, b, c := pml1 + 8 * (v % 512 + p), phys + 4096 * p, phys + 4096 * n;
    Aligned8(pml1, v % 512 + p);
    var s1 := AfterStore(s, pml1, phys, v, i, flags);
    StorePersists(s, pml1, phys, v, i, flags, a, phys + 4096 * i, c);
    var s2 := s1;
    if v % 512 + i > 511 {
      MapPersists(s1, cr3, phys + 4096 * i, v + i, n - i, flags, a, phys + 4096 * i, c);
      s2 := MapPages(s1, cr3, phys + 4096 * i, v + i, n - i, flags);
    }
    if i < p {
      LoopLeaves(s2, cr3, pml1, phys, v, n, i + 1, p, flags);
    } else {
      LoopPersists(s2, cr3, pml1, phys, v, n, i + 1, flags, a, b, c);
    }
  }

  // --------------------------------------- tables once harmed stay harmed

  /** No entry above level 1 names a page of the block b .. c, and no table lies in
      the page at 0. */
  ghost predicate Setting(m: Mem, cr3: nat, b: nat, c: nat, flags: nat) {
    && Tree(m, cr3) && OffTables(m, cr3, 0, 4096)
    && forall x: nat, l: nat, k: nat, j: nat | 2 <= l && Hit(m, cr3, x, l, k, j) :: !Names(Load64(m, x), b, c, flags)
  }

  lemma SettingTree(m: Mem, cr3: nat, b: nat, c: nat, flags: nat)
    requires Setting(m, cr3, b, c, flags)
    ensures Tree(m, cr3) && OffTables(m, cr3, 0, 4096)
  {}

  lemma UpperWord(m: Mem, m': Mem, cr3: nat, x: nat, l: nat, k: nat, j: nat)
    requires SameUpper(m, m', cr3) && 2 <= l && Hit(m, cr3, x, l, k, j)
    ensures Load64(m', x) == Load64(m, x)
  {
    hide Load64, Table, Key;
    assert Entry(m', Table(m, cr3, l, k).value, j) == Entry(m, Table(m, cr3, l, k).value, j);
  }

  /** Some entry above level 1 names a page of the block. */
  ghost predicate Corrupt(m: Mem, s: Machine, cr3: nat, b: nat, c: nat, flags: nat) {
    exists x: nat, l: nat, k: nat, j: nat ::
      2 <= l && Hit(m, cr3, x, l, k, j) && Beyond(s.pool, x) && Names(Load64(s.mem, x), b, c, flags)
  }

  /** A word of a planned table that is linked is in no free frame. */
  lemma HitWord(m: Mem, s: Machine, cr3: nat, x: nat, l: nat, k: nat, j: nat)
    requires Tree(m, cr3) && OffTables(m, cr3, 0, 4096) && Hit(m, cr3, x, l, k, j)
    requires PoolApart(s, cr3) && Table(s.mem, cr3, l, k) == Table(m, cr3, l, k)
    ensures x % 8 == 0 && Beyond(s.pool, x)
  {
    hide Load64, Table, Key, Unshared;
    TableWords(m, cr3, l, k, j);
    forall f | f in s.pool
      ensures Apart(f, x)
    {
      var i :| 0 <= i < |s.pool| && s.pool[i] == f;
      assert OffTables(s.mem, cr3, s.pool[i], 4096);
    }
  }

  /** Tables as planned name no page of the block. */
  lemma NotCorrupt(m: Mem, s: Machine, cr3: nat, b: nat, c: nat, flags: nat)
    requires Setting(m, cr3, b, c, flags) && SameUpper(m, s.mem, cr3)
    ensures !Corrupt(m, s, cr3, b, c, flags)
  {
    hide Load64, Hit, Unshared, Names, Beyond, SameUpper;
    forall x: nat, l: nat, k: nat, j: nat | 2 <= l && Hit(m, cr3, x, l, k, j)
      ensures Load64(s.mem, x) == Load64(m, x)
    {
      UpperWord(m, s.mem, cr3, x, l, k, j);
    }
  }

  /** One store at a stage leads to a stage or harms a table. */
  lemma StoreSplits(r: Machine, s: Machine, cr3: nat, pml1: nat, phys: nat, v: nat, i: nat, end: nat, flags: nat, b: nat, c: nat)
    requires Mappable(phys, i + 1, flags) && b <= phys + 4096 * i < c && Setting(r.mem, cr3, b, c, flags)
    requires LoopStage(r, s, cr3, pml1, v, i, end)
    ensures var s1 := AfterStore(s, pml1, phys, v, i, flags);
            LoopStage(r, s1, cr3, pml1, v, i, end) || Corrupt(r.mem, s1, cr3, b, c, flags)
  {
    hide Load64, Store64, Table, Key, Tree, Setting, Names, SameUpper, Beyond, Stage;
    var x := pml1 + 8 * (v % 512 + i);
    StageBounds(r, s, cr3, v, end);
    TableAligned(s.mem, cr3, 1, v / 512);
    Aligned8(pml1, v % 512 + i);
    if l: nat, k: nat, j: nat :| Hit(s.mem, cr3, x, l, k, j) && 2 <= l {
      StageTables(r, s, cr3, v, end);
      assert Hit(r.mem, cr3, x, l, k, j);
      SettingTree(r.mem, cr3, b, c, flags);
      HitWord(r.mem, s, cr3, x, l, k, j);
      StorePersists(s, pml1, phys, v, i, flags, x, b, c);
    } else {
      StoreKeepsUpper(s.mem, cr3, x, phys + 4096 * i + flags);
      LoopStageStore(r, s, AfterStore(s, pml1, phys, v, i, flags).mem, cr3, pml1, v, i, end);
    }
  }

  lemma CorruptLoop(m: Mem, s: Machine, cr3: nat, pml1: nat, phys: nat, v: nat, n: nat, i: nat, flags: nat, b: nat, c: nat)
    requires Mappable(phys, n, flags) && i <= n && flags % 2 == 1 && b <= phys + 4096 * i && phys + 4096 * n <= c
    requires cr3 % 4096 == 0 && pml1 % 4096 == 0 && Corrupt(m, s, cr3, b, c, flags)
    ensures Corrupt(m, MapLoop(s, cr3, pml1, phys, v, n, i, flags), cr3, b, c, flags)
  {
    hide Load64, Table, Key, Names, Beyond, MapLoop;
    var x: nat, l: nat, k: nat, j: nat :|
      2 <= l && Hit(m, cr3, x, l, k, j) && Beyond(s.pool, x) && Names(Load64(s.mem, x), b, c, flags);
    TableWords(m, cr3, l, k, j);
    LoopPersists(s, cr3, pml1, phys, v, n, i, flags, x, b, c);
  }

  lemma CorruptMap(m: Mem, s: Machine, cr3: nat, phys: nat, v: nat, n: nat, flags: nat, b: nat, c: nat)
    requires Mappable(phys, n, flags) && flags % 2 == 1 && b <= phys && phys + 4096 * n <= c
    requires cr3 % 4096 == 0 && Corrupt(m, s, cr3, b, c, flags)
    ensures Corrupt(m, MapPages(s, cr3, phys, v, n, flags), cr3, b, c, flags)
  {
    hide Load64, Table, Key, Names, Beyond, MapPages;
    var x: nat, l: nat, k: nat, j: nat :|
      2 <= l && Hit(m, cr3, x, l, k, j) && Beyond(s.pool, x) && Names(Load64(s.mem, x), b, c, flags);
    TableWords(m, cr3, l, k, j);
    MapPersists(s, cr3, phys, v, n, flags, x, b, c);
  }

  /** A call at a stage ends with the plan carried out or with a harmed table. */
  lemma {:induction false} MapSplits(r: Machine, s: Machine, cr3: nat, phys: nat, v: nat, n: nat, flags: nat, b: nat, c: nat)
    requires Mappable(phys, n, flags) && flags % 2 == 1 && b <= phys && phys + 4096 * n <= c
    requires Setting(r.mem, cr3, b, c, flags) && Plan(r, cr3, v, v + n) && Stage(r, s, cr3, v, v + n)
    ensures var s' := MapPages(s, cr3, phys, v, n, flags);
            Agree(r, s', cr3) || Corrupt(r.mem, s', cr3, b, c, flags)
    decreases n, n + 1
  {
    hide Load64, Table, Setting, LeafTable, MapLoop, Agree, Corrupt, Stage, Plan, Linking;
    StageLeafTable(r, s, cr3, v, v + n);
    var (pml1, s1) := LeafTable(s, cr3, v);
    assert v % 512 < 512;
    LoopSplits(r, s1, cr3, pml1, phys, v, n, 0, flags, b, c);
  }

  lemma {:induction false} LoopSplits(r: Machine, s: Machine, cr3: nat, pml1: nat, phys: nat, v: nat, n: nat, i: nat, flags: nat, b: nat, c: nat)
    requires Mappable(phys, n, flags) && i <= n && flags % 2 == 1 && b <= phys + 4096 * i && phys + 4096 * n <= c
    requires Setting(r.mem, cr3, b, c, flags) && Plan(r, cr3, v, v + n) && LoopStage(r, s, cr3, pml1, v, i, v + n)
    ensures var s' := MapLoop(s, cr3, pml1, phys, v, n, i, flags);
            Agree(r, s', cr3) || Corrupt(r.mem, s', cr3, b, c, flags)
    decreases n, n - i
  {
    hide Load64, Store64, Table, Setting, MapPages, Agree, Corrupt, LoopStage, Plan;
    if i == n {
      LoopStageEnd(r, s, cr3, pml1, v, n);
    } else {
      var s2 := AfterTurn(s, cr3, pml1, phys, v, n, i, flags);
      TurnSplits(r, s, cr3, pml1, phys, v, n, i, flags, b, c);
      if LoopStage(r, s2, cr3, pml1, v, i + 1, v + n) {
        LoopSplits(r, s2, cr3, pml1, phys, v, n, i + 1, flags, b, c);
      } else {
        TableAddress(r, s, cr3, pml1, v, i, v + n);
        CorruptLoop(r.mem, s2, cr3, pml1, phys, v, n, i + 1, flags, b, c);
      }
    }
  }

  lemma TableAddress(r: Machine, s: Machine, cr3: nat, pml1: nat, v: nat, i: nat, end: nat)
    requires LoopStage(r, s, cr3, pml1, v, i, end)
    ensures cr3 % 4096 == 0 && pml1 % 4096 == 0
  {
    hide Table, Stage, Agree;
    StageBounds(r, s, cr3, v, end);
    TableAligned(s.mem, cr3, 1, v / 512);
  }

  lemma {:induction false} TurnSplits(r: Machine, s: Machine, cr3: nat, pml1: nat, phys: nat, v: nat, n: nat, i: nat, flags: nat, b: nat, c: nat)
    requires Mappable(phys, n, flags) && i < n && flags % 2 == 1 && b <= phys + 4096 * i && phys + 4096 * n <= c
    requires Setting(r.mem, cr3, b, c, flags) && Plan(r, cr3, v, v + n) && LoopStage(r, s, cr3, pml1, v, i, v + n)
    ensures var s2 := AfterTurn(s, cr3, pml1, phys, v, n, i, flags);
            LoopStage(r, s2, cr3, pml1, v, i + 1, v + n) || Corrupt(r.mem, s2, cr3, b, c, flags)
    decreases n, n - i, 0
  {
    hide Load64, Store64, Table, Setting, MapPages, Agree, Corrupt, Stage, Plan, AfterStore;
    var s1 := AfterStore(s, pml1, phys, v, i, flags);
    TableAddress(r, s, cr3, pml1, v, i, v + n);
    StoreSplits(r, s, cr3, pml1, phys, v, i, v + n, flags, b, c);
    if v % 512 + i <= 511 {
      if LoopStage(r, s1, cr3, pml1, v, i, v + n) {
        LoopStageNext(r, s1, cr3, pml1, v, i, v + n);
      }
    } else {
      var s2 := MapPages(s1, cr3, phys + 4096 * i, v + i, n - i, flags);
      if LoopStage(r, s1, cr3, pml1, v, i, v + n) {
        PastStage(r, s1, cr3, pml1, v, i, v + n);
        PlanLater(r, cr3, v, v + i, v + n);
        MapSplits(r, s1, cr3, phys + 4096 * i, v + i, n - i, flags, b, c);
        if Agree(r, s2, cr3) {
          WholeLoopStage(r, s2, cr3, pml1, v, i + 1, v + n);
        }
      } else {
        CorruptMap(r.mem, s1, cr3, phys + 4096 * i, v + i, n - i, flags, b, c);
      }
    }
  }

  /** When the tables come out as planned, every turn was at its stage. */
  lemma StageBefore(r: Machine, s: Machine, cr3: nat, pml1: nat, phys: nat, v: nat, n: nat, i: nat, flags: nat)
    requires Mappable(phys, n, flags) && i < n && flags % 2 == 1
    requires Setting(r.mem, cr3, phys, phys + 4096 * n, flags) && Plan(r, cr3, v, v + n)
    requires LoopStage(r, s, cr3, pml1, v, i, v + n)
    requires SameUpper(r.mem, MapLoop(s, cr3, pml1, phys, v, n, i, flags).mem, cr3)
    ensures LoopStage(r, AfterTurn(s, cr3, pml1, phys, v, n, i, flags), cr3, pml1, v, i + 1, v + n)
    ensures v % 512 + i > 511 ==> LoopStage(r, AfterStore(s, pml1, phys, v, i, flags), cr3, pml1, v, i, v + n)
  {
    hide Load64, Store64, Table, Setting, MapPages, SameUpper, Corrupt, LoopStage, Plan;
    var b, c := phys, phys + 4096 * n;
    var s1, s2 := AfterStore(s, pml1, phys, v, i, flags), AfterTurn(s, cr3, pml1, phys, v, n, i, flags);
    var s' := MapLoop(s2, cr3, pml1, phys, v, n, i + 1, flags);
    assert s' == MapLoop(s, cr3, pml1, phys, v, n, i, flags);
    NotCorrupt(r.mem, s', cr3, b, c, flags);
    TableAddress(r, s, cr3, pml1, v, i, v + n);
    TurnSplits(r, s, cr3, pml1, phys, v, n, i, flags, b, c);
    if Corrupt(r.mem, s2, cr3, b, c, flags) {
      CorruptLoop(r.mem, s2, cr3, pml1, phys, v, n, i + 1, flags, b, c);
    }
    StoreSplits(r, s, cr3, pml1, phys, v, i, v + n, flags, b, c);
    if v % 512 + i > 511 && Corrupt(r.mem, s1, cr3, b, c, flags) {
      CorruptMap(r.mem, s1, cr3, phys + 4096 * i, v + i, n - i, flags, b, c);
    }
  }

  /** After the first turn past its table a loop goes on with the whole plan. */
  lemma {:induction false} ReachPlan(r: Machine, s: Machine, cr3: nat, pml1: nat, phys: nat, v: nat, n: nat, i: nat, flags: nat)
      returns (s': Machine)
    requires Mappable(phys, n, flags) && v % 512 + i <= 513 <= v % 512 + n && flags % 2 == 1
    requires Setting(r.mem, cr3, phys, phys + 4096 * n, flags) && Plan(r, cr3, v, v + n)
    requires LoopStage(r, s, cr3, pml1, v, i, v + n)
    requires SameUpper(r.mem, MapLoop(s, cr3, pml1, phys, v, n, i, flags).mem, cr3)
    ensures Agree(r, s', cr3)
    ensures MapLoop(s', cr3, pml1, phys, v, n, 513 - v % 512, flags) == MapLoop(s, cr3, pml1, phys, v, n, i, flags)
    decreases n - i
  {
    hide Load64, Store64, Table, Setting, MapPages, SameUpper, Stage, Plan;
    if v % 512 + i == 513 {
      s' := s;
    } else {
      StageBefore(r, s, cr3, pml1, phys, v, n, i, flags);
      s' := ReachPlan(r, AfterTurn(s, cr3, pml1, phys, v, n, i, flags), cr3, pml1, phys, v, n, i + 1, flags);
    }
  }

  /** The store for page `p` past the table of a later prefix `k` happens, for one,
      in the recursive call for page 512 k + 1; pages before that are done then. */
  lemma {:induction false} LaterTableLeaves(r: Machine, s: Machine, cr3: nat, pml1: nat, phys: nat, v: nat, n: nat, i: nat, flags: nat, k: nat, p: nat)
    requires Mappable(phys, n, flags) && i < n && flags % 2 == 1
    requires Setting(r.mem, cr3, phys, phys + 4096 * n, flags) && Plan(r, cr3, v, v + n)
    requires Agree(r, s, cr3) && Table(r.mem, cr3, 1, v / 512) == Some(pml1) && v % 512 + i > 512
    requires SameUpper(r.mem, MapLoop(s, cr3, pml1, phys, v, n, i, flags).mem, cr3)
    requires v / 512 < k && v + i <= 512 * k + 1 <= p < v + n
    requires Beyond(r.pool, StoredAt(r.mem, cr3, k, p))
    ensures Names(Load64(MapLoop(s, cr3, pml1, phys, v, n, i, flags).mem, StoredAt(r.mem, cr3, k, p)),
                  phys + 4096 * (512 * k + 1 - v), phys + 4096 * n, flags)
    decreases n - i
  {
    hide Load64, Store64, Table, Setting, MapPages, SameUpper, Beyond, Names, Stage, Plan, StoredAt;
    WholeLoopStage(r, s, cr3, pml1, v, i, v + n);
    StageBefore(r, s, cr3, pml1, phys, v, n, i, flags);
    var s2 := AfterTurn(s, cr3, pml1, phys, v, n, i, flags);
    if v + i < 512 * k + 1 {
      LaterTableLeaves(r, s2, cr3, pml1, phys, v, n, i + 1, flags, k, p);
    } else {
      TableAddress(r, s, cr3, pml1, v, i, v + n);
      PlanLater(r, cr3, v, v + i, v + n);
      CallLeaves(r, AfterStore(s, pml1, phys, v, i, flags), cr3, phys + 4096 * i, n - i, flags, k, p);
      LoopPersists(s2, cr3, pml1, phys, v, n, i + 1, flags, StoredAt(r.mem, cr3, k, p), phys + 4096 * i, phys + 4096 * n);
    }
  }

  lemma CallLeaves(r: Machine, s: Machine, cr3: nat, phys: nat, n: nat, flags: nat, k: nat, p: nat)
    requires Mappable(phys, n, flags) && flags % 2 == 1 && 512 * k + 1 <= p < 512 * k + 1 + n
    requires Plan(r, cr3, 512 * k + 1, 512 * k + 1 + n) && Agree(r, s, cr3)
    requires Beyond(r.pool, StoredAt(r.mem, cr3, k, p))
    ensures var s' := MapPages(s, cr3, phys, 512 * k + 1, n, flags);
            && StoredAt(r.mem, cr3, k, p) % 8 == 0
            && Names(Load64(s'.mem, StoredAt(r.mem, cr3, k, p)), phys, phys + 4096 * n, flags)
            && Beyond(s'.pool, StoredAt(r.mem, cr3, k, p))
  {
    hide Load64, Store64, Table, LeafTable, MapLoop, SameUpper, Beyond, Stocked;
    var v := 512 * k + 1;
    PageOfTable(k);
    StageRange(r, cr3, v, v + n);
    AgreeServed(r, s, cr3, v, v + n);
    AgreeStocked(r, s, cr3, v, v + n);
    TablesThere(s, cr3, v, v + n);
    SamePage(v, v);
    SameTables(r.mem, s.mem, cr3, 1, k);
    var t := Table(r.mem, cr3, 1, k).value;
    PlanAligned(r, cr3, v, v + n);
    TableAligned(r.mem, cr3, 1, k);
    assert MapPages(s, cr3, phys, v, n, flags) == MapLoop(s, cr3, t, phys, v, n, 0, flags);
    LoopLeaves(s, cr3, t, phys, v, n, 0, p - v, flags);
    TableWords(r.mem, cr3, 1, k, p - 512 * k);
    MapPersists(s, cr3, phys, v, n, flags, StoredAt(r.mem, cr3, k, p), phys, phys + 4096 * n);
  }

  // ----------------------------------------------------------- the theorem

  /** A block to map: no table in it, and no page outside the range mapped to it. */
  ghost predicate NewBlock(s: Machine, cr3: nat, phys: nat, v: nat, n: nat, flags: nat) {
    && Setting(LinkAll(s, cr3, v, v + n).mem, cr3, phys, phys + 4096 * n, flags)
    && forall u: nat | u < VPN_LIMIT && !(v <= u < v + n) :: !Names(Leaf(s.mem, cr3, u), phys, phys + 4096 * n, flags)
  }

  /** A call is right exactly when each word it stores past a level-1 table misses
      the tables in place or hits an entry that is stored again. */
  lemma SpillExact(s: Machine, cr3: nat, phys: nat, v: nat, n: nat, flags: nat)
    requires Mappable(phys, n, flags) && 0 < n && flags % 2 == 1
    requires Stocked(s, cr3, v, v + n) && NewBlock(s, cr3, phys, v, n, flags)
    ensures MapsExactly(s, MapPages(s, cr3, phys, v, n, flags), cr3, phys, v, n, flags)
       <==> Harmless(s, cr3, v, v + n)
  {
    hide Stocked, MapPages, LinkAll, LeafTable, HarmlessOn, Hit, StoredAt, Setting, Mapped, SameUpper, Leaf, Names;
    if Harmless(s, cr3, v, v + n) {
      HarmlessMaps(s, cr3, phys, v, n, flags);
    }
    if MapsExactly(s, MapPages(s, cr3, phys, v, n, flags), cr3, phys, v, n, flags) {
      var m0, m := LeafTable(s, cr3, v).1.mem, LinkAll(s, cr3, v, v + n).mem;
      forall k: nat, p: nat, l: nat, k': nat, j: nat
        | v / 512 <= k && 512 * k + 512 <= p < v + n
          && Hit(Standing(m0, m, v, k, p), cr3, StoredAt(m, cr3, k, p), l, k', j)
        ensures l == 1 && Repaired(v, k, p, 512 * k' + j, v + n)
      {
        HitRepaired(s, cr3, phys, v, n, flags, k, p, l, k', j);
      }
      assert HarmlessOn(m0, m, cr3, v, v + n) by { HarmlessBy(m0, m, cr3, v, v + n); }
    }
  }

  /** The first page whose store may still follow the one for `p` past `k`. */
  function Since(v: nat, k: nat, p: nat): nat {
    if k == v / 512 then p else 512 * k + 1
  }

  /** In a right run, a word stored past a table still names that page at the end,
      or one stored later. */
  lemma HitLeaves(s: Machine, cr3: nat, phys: nat, v: nat, n: nat, flags: nat, k: nat, p: nat)
    requires Mappable(phys, n, flags) && flags % 2 == 1 && Stocked(s, cr3, v, v + n)
    requires v / 512 <= k && 512 * k + 512 <= p < v + n
    requires Setting(LinkAll(s, cr3, v, v + n).mem, cr3, phys, phys + 4096 * n, flags)
    requires SameUpper(LinkAll(s, cr3, v, v + n).mem, MapPages(s, cr3, phys, v, n, flags).mem, cr3)
    requires var s1, r := LeafTable(s, cr3, v).1, LinkAll(s, cr3, v, v + n);
             Beyond(if k == v / 512 && p == NextStart(v) then s1.pool else r.pool, StoredAt(r.mem, cr3, k, p))
    ensures v <= Since(v, k, p)
    ensures Names(Load64(MapPages(s, cr3, phys, v, n, flags).mem, StoredAt(LinkAll(s, cr3, v, v + n).mem, cr3, k, p)),
                  phys + 4096 * (Since(v, k, p) - v), phys + 4096 * n, flags)
  {
    hide Load64, Table, Stocked, LeafTable, LinkAll, MapLoop, SameUpper, Names, Beyond, Setting, Plan, Stage;
    var r := LinkAll(s, cr3, v, v + n);
    var (t, s1) := LeafTable(s, cr3, v);
    var x := StoredAt(r.mem, cr3, k, p);
    CallStage(s, cr3, v, v + n);
    TableAddress(r, s1, cr3, t, v, 0, v + n);
    if k == v / 512 {
      StoredOffset(v, p - v);
      assert x == t + 8 * (v % 512 + (p - v));
    }
    if k == v / 512 && p == NextStart(v) {
      LoopLeaves(s1, cr3, t, phys, v, n, 0, p - v, flags);
    } else {
      var s2 := ReachPlan(r, s1, cr3, t, phys, v, n, 0, flags);
      if k == v / 512 {
        LoopLeaves(s2, cr3, t, phys, v, n, 513 - v % 512, p - v, flags);
      } else {
        LaterTableLeaves(r, s2, cr3, t, phys, v, n, 513 - v % 512, flags, k, p);
      }
    }
  }

  lemma HitRepaired(s: Machine, cr3: nat, phys: nat, v: nat, n: nat, flags: nat, k: nat, p: nat, l: nat, k': nat, j: nat)
    requires Mappable(phys, n, flags) && 0 < n && flags % 2 == 1
    requires Stocked(s, cr3, v, v + n) && NewBlock(s, cr3, phys, v, n, flags)
    requires MapsExactly(s, MapPages(s, cr3, phys, v, n, flags), cr3, phys, v, n, flags)
    requires v / 512 <= k && 512 * k + 512 <= p < v + n
    requires var m0, m := LeafTable(s, cr3, v).1.mem, LinkAll(s, cr3, v, v + n).mem;
             Hit(Standing(m0, m, v, k, p), cr3, StoredAt(m, cr3, k, p), l, k', j)
    ensures l == 1 && Repaired(v, k, p, 512 * k' + j, v + n)
  {
    hide Load64, Stocked, MapPages, LinkAll, LeafTable, Setting, StoredAt, Mapped, SameUpper, Leaf, Names, Beyond, Hit;
    var m, x := LinkAll(s, cr3, v, v + n).mem, StoredAt(LinkAll(s, cr3, v, v + n).mem, cr3, k, p);
    var s' := MapPages(s, cr3, phys, v, n, flags);
    SettingTree(m, cr3, phys, phys + 4096 * n, flags);
    HitBeyond(s, cr3, v, v + n, k, p, x, l, k', j);
    HitLeaves(s, cr3, phys, v, n, flags, k, p);
    HitEnds(m, s'.mem, cr3, phys, v, n, flags, Since(v, k, p), x, l, k', j);
    var u := 512 * k' + j;
    assert Leaf(s'.mem, cr3, u) == Load64(s'.mem, x);
    LeafSince(s.mem, s'.mem, cr3, phys, v, n, flags, Since(v, k, p), u);
    if k != v / 512 {
      PlanIs(s, cr3, v, v + n);
      PlanHas(LinkAll(s, cr3, v, v + n), cr3, v, v + n, k);
      OtherTable(m, cr3, k, p, k', j);
    }
  }

  lemma PlanHas(r: Machine, cr3: nat, lo: nat, end: nat, k: nat)
    requires Plan(r, cr3, lo, end) && lo <= 512 * k < end
    ensures Table(r.mem, cr3, 1, k).Some?
  {
    hide Table, Stocked;
    PageOfTable(k);
    assert Table(r.mem, cr3, 1, (512 * k) / 512).Some?;
  }

  /** A hit in the tables in place is a hit in the plan, in no free frame. */
  lemma HitBeyond(s: Machine, cr3: nat, v: nat, end: nat, k: nat, p: nat, x: nat, l: nat, k': nat, j: nat)
    requires Stocked(s, cr3, v, end) && v < end && OffTables(LinkAll(s, cr3, v, end).mem, cr3, 0, 4096)
    requires Hit(Standing(LeafTable(s, cr3, v).1.mem, LinkAll(s, cr3, v, end).mem, v, k, p), cr3, x, l, k', j)
    ensures j < 512 && Hit(LinkAll(s, cr3, v, end).mem, cr3, x, l, k', j)
    ensures var s1, r := LeafTable(s, cr3, v).1, LinkAll(s, cr3, v, end);
            Beyond(if k == v / 512 && p == NextStart(v) then s1.pool else r.pool, x)
  {
    hide Table, Key, Stocked, LinkAll, LeafTable, Setting, Beyond, Stage;
    var s1, r := LeafTable(s, cr3, v).1, LinkAll(s, cr3, v, end);
    CallStage(s, cr3, v, end);
    PlanAligned(r, cr3, v, end);
    if k == v / 512 && p == NextStart(v) {
      StageTables(r, s1, cr3, v, end);
      StageBounds(r, s1, cr3, v, end);
      assert Hit(r.mem, cr3, x, l, k', j);
      HitWord(r.mem, s1, cr3, x, l, k', j);
    } else {
      HitWord(r.mem, r, cr3, x, l, k', j);
    }
  }

  /** A word naming a page of the block is, on tables as planned, a page's entry. */
  lemma HitEnds(m: Mem, m': Mem, cr3: nat, phys: nat, v: nat, n: nat, flags: nat, q: nat, x: nat, l: nat, k: nat, j: nat)
    requires SameUpper(m, m', cr3) && Setting(m, cr3, phys, phys + 4096 * n, flags) && flags % 2 == 1
    requires Hit(m, cr3, x, l, k, j) && v <= q
    requires Names(Load64(m', x), phys + 4096 * (q - v), phys + 4096 * n, flags)
    ensures l == 1 && 512 * k + j < VPN_LIMIT && Leaf(m', cr3, 512 * k + j) == Load64(m', x)
  {
    hide Load64, Table, SameUpper, Unshared;
    if l >= 2 {
      UpperWord(m, m', cr3, x, l, k, j);
    } else {
      SameTables(m, m', cr3, 1, k);
      assert (512 * k + j) / 512 == k && (512 * k + j) % 512 == j;
    }
  }

  lemma LeafSince(m: Mem, m': Mem, cr3: nat, phys: nat, v: nat, n: nat, flags: nat, q: nat, u: nat)
    requires Mapped(m, m', cr3, phys, v, v + n, flags) && u < VPN_LIMIT && v <= q
    requires Names(Leaf(m', cr3, u), phys + 4096 * (q - v), phys + 4096 * n, flags)
    requires !(v <= u < v + n) ==> !Names(Leaf(m, cr3, u), phys, phys + 4096 * n, flags)
    ensures q <= u < v + n
  {
    hide Leaf;
  }

  /** A word past a table is not one of its own entries. */
  lemma OtherTable(m: Mem, cr3: nat, k: nat, p: nat, k': nat, j: nat)
    requires 512 * k + 512 <= p && Table(m, cr3, 1, k).Some? && Hit(m, cr3, StoredAt(m, cr3, k, p), 1, k', j)
    ensures k' != k
  {
    hide Table;
  }
}
