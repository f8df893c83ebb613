/** What MapVirtualPages does when an entry on its path is in use but no table: a
    large page, an entry that is not present, or one with a bit above 51 set. */
module PathEntries {
  import opened Words
  import opened Memory
  import opened Options
  import opened PageTables
  import opened TableLinking
  import opened PageMapping
  import opened TablePlan
  import opened MappingProof
  import opened MappingTheorems

  /** An entry the call follows though it leads to no table. */
  predicate Misleads(e: Word) { e != 0 && !TableEntry(e) }

  /** The entry of the path at the link to level `l`. */
  function OnPath(s: Machine, cr3: nat, v: nat, l: nat): Word
    requires 1 <= l <= 3
  {
    Link(s.mem, cr3, l, Prefix(v, l))
  }

  /** The words the call reads and writes once it has been misled touch no table. */
  ghost predicate StraysClear(s: Machine, cr3: nat, v: nat, n: nat) {
    var e3, e2, e1 := OnPath(s, cr3, v, 3), OnPath(s, cr3, v, 2), OnPath(s, cr3, v, 1);
    var (pml3, s3) := NextTable(s, cr3, v / 512 / 512 / 512 % 512);
    var (pml2, s2) := NextTable(s3, pml3, v / 512 / 512 % 512);
    var pml1 := NextTable(s2, pml2, v / 512 % 512).0;
    && (Misleads(e3) ==> OffTables(s.mem, cr3, pml3 + 8 * (v / 512 / 512 % 512), 8))
    && (Misleads(e3) || Misleads(e2) ==> OffTables(s.mem, cr3, pml2 + 8 * (v / 512 % 512), 8))
    && (Misleads(e3) || Misleads(e2) || Misleads(e1) ==> OffTables(s.mem, cr3, pml1 + 8 * (v % 512), 8 * n))
  }

  /** The same tables and translations as `m`, and the free frames clear of them. */
  ghost predicate Untranslated(m: Mem, s: Machine, cr3: nat) {
    && Tree(m, cr3) && SameUpper(m, s.mem, cr3) && SameLeaves(m, s.mem, cr3)
    && OffTables(m, cr3, 0, 4096) && forall f | f in s.pool :: OffTables(m, cr3, f, 4096)
  }

  /** Looking for a table at a stray address, and linking one there, changes no
      translation. */
  lemma StrayNext(m: Mem, s: Machine, cr3: nat, t: nat, j: nat)
    requires Untranslated(m, s, cr3) && OffTables(m, cr3, t + 8 * j, 8)
    ensures Untranslated(m, NextTable(s, t, j).1, cr3)
  {
    hide Load64, Store64, Zero, Table, Key, Tree, Leaf, Large, Link, OffTables, SameUpper;
    if Entry(s.mem, t, j) == 0 {
      var f: Frame := if s.pool == [] then 0 else s.pool[0];
      var m1 := Zero(s.mem, f, 4096);
      var m2 := Store64(m1, t + 8 * j, f + 3);
      SameTree(m, s.mem, cr3);
      StillOff(m, s.mem, cr3, f, 4096);
      ZeroSame(s.mem, cr3, f);
      UpperTrans(m, s.mem, m1, cr3);
      SameTree(m, m1, cr3);
      StillOff(m, m1, cr3, t + 8 * j, 8);
      StoreOffTables(m1, cr3, t + 8 * j, f + 3);
      UpperTrans(m, m1, m2, cr3);
    }
  }

  lemma StillOff(m: Mem, m': Mem, cr3: nat, a: nat, n: nat)
    requires OffTables(m, cr3, a, n) && SameUpper(m, m', cr3)
    ensures OffTables(m', cr3, a, n)
  {
    hide Table, Key;
    SameTree(m, m', cr3);
  }

  /** Clearing a frame off all tables changes no translation. */
  lemma ZeroSame(m: Mem, cr3: nat, f: nat)
    requires Tree(m, cr3) && OffTables(m, cr3, f, 4096)
    ensures SameUpper(m, Zero(m, f, 4096), cr3) && SameLeaves(m, Zero(m, f, 4096), cr3)
  {
    hide Load64, Zero, Table, Key, Tree, Large, Link, Entry;
    var m1 := Zero(m, f, 4096);
    ZeroKeepsEntries(m, cr3, f);
    SameTree(m, m1, cr3);
    SameLarge(m, m1, cr3);
    forall u: nat | u < VPN_LIMIT
      ensures Leaf(m1, cr3, u) == Leaf(m, cr3, u)
    {
      SamePage(u, u);
    }
  }

  lemma {:induction false} StrayLoop(m: Mem, s: Machine, cr3: nat, t: nat, phys: nat, v: nat, n: nat, i: nat, flags: nat)
    requires Mappable(phys, n, flags) && i <= n && v % 512 + n <= 512 && Tree(m, cr3)
    requires OffTables(m, cr3, t + 8 * (v % 512), 8 * n)
    requires SameUpper(m, s.mem, cr3) && SameLeaves(m, s.mem, cr3)
    requires forall j: nat | j < i :: Load64(s.mem, t + 8 * (v % 512 + j)) == phys + 4096 * j + flags
    ensures var s' := MapLoop(s, cr3, t, phys, v, n, i, flags);
            && s'.pool == s.pool && SameUpper(m, s'.mem, cr3) && SameLeaves(m, s'.mem, cr3)
            && forall j: nat | j < n :: Load64(s'.mem, t + 8 * (v % 512 + j)) == phys + 4096 * j + flags
    decreases n - i
  {
    hide Load64, Store64, Table, Key, Tree, Leaf, Large, OffTables, SameUpper;
    if i < n {
      var a, w := t + 8 * (v % 512 + i), phys + 4096 * i + flags;
      var s1 := s.(mem := Store64(s.mem, a, w));
      WordOff(m, s.mem, cr3, t, v, n, i);
      SameTree(m, s.mem, cr3);
      StoreOffTables(s.mem, cr3, a, w);
      UpperTrans(m, s.mem, s1.mem, cr3);
      Store64Load64(s.mem, a, w);
      forall j: nat | j < i
        ensures Load64(s1.mem, t + 8 * (v % 512 + j)) == phys + 4096 * j + flags
      {
        Store64Other(s.mem, a, w, t + 8 * (v % 512 + j));
      }
      StrayLoop(m, s1, cr3, t, phys, v, n, i + 1, flags);
    }
  }

  lemma WordOff(m: Mem, m': Mem, cr3: nat, t: nat, v: nat, n: nat, i: nat)
    requires OffTables(m, cr3, t + 8 * (v % 512), 8 * n) && SameUpper(m, m', cr3) && i < n
    ensures OffTables(m', cr3, t + 8 * (v % 512 + i), 8)
  {
    hide Table, Key;
    SameTree(m, m', cr3);
  }

  /** The rest of the call, from a stray level-1 table on. */
  lemma StrayRest(m: Mem, s: Machine, cr3: nat, t: nat, phys: nat, v: nat, n: nat, flags: nat)
    requires Mappable(phys, n, flags) && v % 512 + n <= 512
    requires Untranslated(m, s, cr3) && OffTables(m, cr3, t + 8 * (v % 512), 8 * n)
    ensures SameLeaves(m, MapLoop(s, cr3, t, phys, v, n, 0, flags).mem, cr3)
    ensures forall i: nat | i < n ::
      Load64(MapLoop(s, cr3, t, phys, v, n, 0, flags).mem, t + 8 * (v % 512 + i)) == phys + 4096 * i + flags
  {
    hide Load64, Tree, Leaf, Large, OffTables, SameUpper, MapLoop;
    StrayLoop(m, s, cr3, t, phys, v, n, 0, flags);
  }

  /** A call that is misled changes no translation; its entries overwrite the words
      at which it was led to look for a table. */
  lemma MisledSame(s: Machine, cr3: nat, phys: nat, v: nat, n: nat, flags: nat)
    requires Mappable(phys, n, flags) && v % 512 + n <= 512 && v < VPN_LIMIT
    requires Tree(s.mem, cr3) && PoolApart(s, cr3) && OffTables(s.mem, cr3, 0, 4096) && StraysClear(s, cr3, v, n)
    requires Misleads(OnPath(s, cr3, v, 3)) || Misleads(OnPath(s, cr3, v, 2)) || Misleads(OnPath(s, cr3, v, 1))
    ensures SameLeaves(s.mem, MapPages(s, cr3, phys, v, n, flags).mem, cr3)
    ensures forall i: nat | i < n ::
      Load64(MapPages(s, cr3, phys, v, n, flags).mem, LeafTable(s, cr3, v).0 + 8 * (v % 512 + i)) == phys + 4096 * i + flags
  {
    hide Load64, Tree, Leaf, Large, OffTables, SameUpper, MapLoop, NextTable, Misleads, OnPath, Untranslated, PoolApart;
    var m := s.mem;
    var (pml3, s3) := NextTable(s, cr3, v / 512 / 512 / 512 % 512);
    var (pml2, s2) := NextTable(s3, pml3, v / 512 / 512 % 512);
    var (pml1, s1) := NextTable(s2, pml2, v / 512 % 512);
    Start(s, cr3);
    if Misleads(OnPath(s, cr3, v, 3)) {
      Follow(s, cr3, v, 3);
      StrayNext(m, s3, cr3, pml3, v / 512 / 512 % 512);
      StrayNext(m, s2, cr3, pml2, v / 512 % 512);
    } else if Misleads(OnPath(s, cr3, v, 2)) {
      Follow(s, cr3, v, 2);
      StrayNext(m, s2, cr3, pml2, v / 512 % 512);
    } else {
      Follow(s, cr3, v, 1);
    }
    StrayRest(m, s1, cr3, pml1, phys, v, n, flags);
  }

  lemma Start(s: Machine, cr3: nat)
    requires Tree(s.mem, cr3) && PoolApart(s, cr3) && OffTables(s.mem, cr3, 0, 4096)
    ensures Untranslated(s.mem, s, cr3)
  {
    hide Tree, OffTables, Leaf, Large;
    SameUpperSelf(s.mem, cr3);
    forall f | f in s.pool
      ensures OffTables(s.mem, cr3, f, 4096)
    {
      var i :| 0 <= i < |s.pool| && s.pool[i] == f;
    }
  }

  /** Down to the entry that misleads it the call allocates nothing. */
  lemma Follow(s: Machine, cr3: nat, v: nat, l: nat)
    requires v < VPN_LIMIT && 1 <= l <= 3 && Misleads(OnPath(s, cr3, v, l))
    requires forall l' | l < l' <= 3 :: !Misleads(OnPath(s, cr3, v, l'))
    ensures var (pml3, s3) := NextTable(s, cr3, v / 512 / 512 / 512 % 512);
            var (pml2, s2) := NextTable(s3, pml3, v / 512 / 512 % 512);
            var s1 := NextTable(s2, pml2, v / 512 % 512).1;
            s3 == s && (l <= 2 ==> s2 == s) && (l <= 1 ==> s1 == s)
  {
    hide Load64, PageBase, FrameOf, LargePage, Present;
    ZeroAbsent();
    var k3, k2, k1 := v / 512 / 512 / 512, v / 512 / 512, v / 512;
    assert k3 / 512 == 0 && k3 % 512 == k3;
    RootTable(s.mem, cr3);
    FollowLink(s, cr3, 3, k3);
    FollowLink(s, cr3, 2, k2);
    FollowLink(s, cr3, 1, k1);
    if l <= 2 {
      assert !Misleads(OnPath(s, cr3, v, 3));
    }
    if l <= 1 {
      assert !Misleads(OnPath(s, cr3, v, 2));
    }
  }

  /** An entry in use is followed; a link to a table to that table. */
  lemma FollowLink(s: Machine, cr3: nat, l: nat, k: nat)
    requires 1 <= l <= 3
    ensures Link(s.mem, cr3, l, k) != 0 ==> Table(s.mem, cr3, l + 1, k / 512).Some?
    ensures Link(s.mem, cr3, l, k) != 0 ==>
      NextTable(s, Table(s.mem, cr3, l + 1, k / 512).value, k % 512) == (FrameOf(Link(s.mem, cr3, l, k)), s)
    ensures Table(s.mem, cr3, l, k).Some? ==> Link(s.mem, cr3, l, k) != 0
    ensures TableEntry(Link(s.mem, cr3, l, k)) ==> Table(s.mem, cr3, l, k) == Some(FrameOf(Link(s.mem, cr3, l, k)))
  {
    hide Load64, PageBase, FrameOf, LargePage, Present;
    ZeroAbsent();
    TableOfLink(s.mem, cr3, l, k);
    if TableEntry(Link(s.mem, cr3, l, k)) {
      TableEntryTarget(Link(s.mem, cr3, l, k));
    }
  }

  /** Mapping a new block to a range within one level-1 table works exactly when each
      entry in use on the path is a table; otherwise no translation changes. */
  lemma PathExact(s: Machine, cr3: nat, phys: nat, v: nat, n: nat, flags: nat)
    requires Mappable(phys, n, flags) && flags % 2 == 1 && 0 < n && v % 512 + n <= 512 && v < VPN_LIMIT
    requires Tree(s.mem, cr3) && PoolApart(s, cr3) && Supplied(s, cr3, Path(v, v + n))
    requires OffTables(s.mem, cr3, 0, 4096) && StraysClear(s, cr3, v, n)
    requires forall va: nat | 4096 * v <= va < 4096 * (v + n) :: Walk(s.mem, cr3, 4, va) != Some(phys + (va - 4096 * v))
    ensures var m' := MapPages(s, cr3, phys, v, n, flags).mem;
            && ((forall va: nat | 4096 * v <= va < 4096 * (v + n) :: Walk(m', cr3, 4, va) == Some(phys + (va - 4096 * v)))
                <==> Passable(s.mem, cr3, Path(v, v + n)))
            && (!Passable(s.mem, cr3, Path(v, v + n)) ==>
                  forall va: nat | va < 0x1_0000_0000_0000 :: Walk(m', cr3, 4, va) == Walk(s.mem, cr3, 4, va))
  {
    hide Load64, Tree, Leaf, Large, OffTables, MapPages, PoolApart, Supplied, StraysClear, Walk, Harmless, Passable, Path;
    var s' := MapPages(s, cr3, phys, v, n, flags);
    InRange(v, n);
    if Passable(s.mem, cr3, Path(v, v + n)) {
      InTableHarmless(s, cr3, v, v + n);
      MapTranslates(s, cr3, phys, v, n, flags);
    } else {
      Misled(s, cr3, v, n);
      MisledSame(s, cr3, phys, v, n, flags);
      forall va: nat | va < 0x1_0000_0000_0000
        ensures Walk(s'.mem, cr3, 4, va) == Walk(s.mem, cr3, 4, va)
      {
        WalkLeaf(s.mem, cr3, va);
        WalkLeaf(s'.mem, cr3, va);
      }
      assert 4096 * v <= 4096 * v < 4096 * (v + n);
      assert Walk(s'.mem, cr3, 4, 4096 * v) != Some(phys + (4096 * v - 4096 * v));
    }
  }

  lemma InRange(v: nat, n: nat)
    requires v < VPN_LIMIT && 0 < n && v % 512 + n <= 512
    ensures v + n <= VPN_LIMIT && v + n <= NextStart(v) && 4096 * v < 0x1_0000_0000_0000
    ensures forall va: nat | 4096 * v <= va < 4096 * (v + n) :: v <= va / 4096 < v + n && va < 0x1_0000_0000_0000
  {}

  /** Within one level-1 table the path has one entry at each level. */
  lemma Misled(s: Machine, cr3: nat, v: nat, n: nat)
    requires v < VPN_LIMIT && 0 < n && v % 512 + n <= 512 && !Passable(s.mem, cr3, Path(v, v + n))
    ensures Misleads(OnPath(s, cr3, v, 3)) || Misleads(OnPath(s, cr3, v, 2)) || Misleads(OnPath(s, cr3, v, 1))
  {
    hide Link, TableEntry, Key;
    SameTable(v, n);
    var l: nat, k: nat :| (l, k) in Path(v, v + n) && 1 <= l <= 3 && Key(l, k)
                          && Link(s.mem, cr3, l, k) != 0 && !TableEntry(Link(s.mem, cr3, l, k));
    assert k == Prefix(v, l);
  }

  lemma SameTable(v: nat, n: nat)
    requires 0 < n && v % 512 + n <= 512
    ensures (v + n - 1) / 512 == v / 512
  {}
}
