/** Linking a fresh, zeroed table into the tree (the three "entry is empty"
    branches of MapVirtualPages). */
module TableLinking {
  import opened Words
  import opened Memory
  import opened Options
  import opened PageTables

  /** `m2` is `m` with the zeroed frame `f` linked at entry `j` of table (`l`, `k`). */
  ghost predicate Linked(m: Mem, m2: Mem, cr3: nat, l: nat, k: nat, j: nat, f: nat) {
    && 2 <= l <= 4 && Key(l, k) && j < 512 && f % 4096 == 0 && f + 3 < PHYS_LIMIT
    && Table(m, cr3, l, k).Some?
    && Entry(m, Table(m, cr3, l, k).value, j) == 0
    && Entry(m2, Table(m, cr3, l, k).value, j) == f + 3
    && (forall i: nat | i < 512 :: Entry(m2, f, i) == 0)
    && forall l': nat, k': nat, j': nat
         | Key(l', k') && Table(m, cr3, l', k').Some? && j' < 512 && (l', k', j') != (l, k, j) ::
         Entry(m2, Table(m, cr3, l', k').value, j') == Entry(m, Table(m, cr3, l', k').value, j')
  }

  lemma ZeroKeepsEntries(m: Mem, cr3: nat, f: nat)
    requires Tree(m, cr3) && OffTables(m, cr3, f, 4096)
    ensures var m1 := Zero(m, f, 4096);
            && (forall l: nat, k: nat, j: nat | Key(l, k) && Table(m, cr3, l, k).Some? && j < 512 ::
                  Entry(m1, Table(m, cr3, l, k).value, j) == Entry(m, Table(m, cr3, l, k).value, j))
            && SameUpper(m, m1, cr3)
  {
    hide Load64, Table, Key, Tree, Zero;
    forall l: nat, k: nat, j: nat | Key(l, k) && Table(m, cr3, l, k).Some? && j < 512
      ensures Entry(Zero(m, f, 4096), Table(m, cr3, l, k).value, j) == Entry(m, Table(m, cr3, l, k).value, j)
    {
      ZeroOther(m, f, 4096, Table(m, cr3, l, k).value + 8 * j);
    }
  }

  lemma LinkFrame(m: Mem, cr3: nat, l: nat, k: nat, j: nat, f: nat)
    requires Tree(m, cr3) && 2 <= l <= 4 && Key(l, k) && j < 512
    requires Table(m, cr3, l, k).Some? && Entry(m, Table(m, cr3, l, k).value, j) == 0
    requires f % 4096 == 0 && f + 4096 <= PHYS_LIMIT && OffTables(m, cr3, f, 4096)
    ensures Linked(m, Store64(Zero(m, f, 4096), Table(m, cr3, l, k).value + 8 * j, f + 3), cr3, l, k, j, f)
  {
    hide Load64, Store64, Table, Key, Tree, Zero;
    var m1 := Zero(m, f, 4096);
    var a := Table(m, cr3, l, k).value + 8 * j;
    ZeroKeepsEntries(m, cr3, f);
    SameTree(m, m1, cr3);
    StoreEntry(m1, cr3, l, k, j, f + 3);
    var m2 := Store64(m1, a, f + 3);
    forall i: nat | i < 512
      ensures Entry(m2, f, i) == 0
    {
      ZeroInside(m, f, 4096, f + 8 * i);
      Store64Other(m1, a, f + 3, f + 8 * i);
    }
  }

  lemma {:induction false} LinkedTable(m: Mem, m2: Mem, cr3: nat, l: nat, k: nat, j: nat, f: nat, l': nat, k': nat)
    requires Linked(m, m2, cr3, l, k, j, f) && Key(l', k')
    ensures Table(m2, cr3, l', k')
         == if l' == l - 1 && k' == 512 * k + j then Some(f) else Table(m, cr3, l', k')
    ensures l' < 4 ==>
      Link(m2, cr3, l', k') == if l' == l - 1 && k' == 512 * k + j then f + 3 else Link(m, cr3, l', k')
    decreases 4 - l'
  {
    if l' < 4 {
      hide Load64, Entry, Key, Table, Link, PageBase, FrameOf, LargePage, Present, Linked;
      ParentKey(l', k');
      LinkedTable(m, m2, cr3, l, k, j, f, l' + 1, k' / 512);
      LinkedLink(m, m2, cr3, l, k, j, f, l', k');
      LinkedFrame(m, m2, cr3, l, k, j, f);
      FreshLink(f);
      TableOfLink(m, cr3, l', k');
      TableOfLink(m2, cr3, l', k');
    } else {
      hide Load64, Entry, Linked;
      LinkedFrame(m, m2, cr3, l, k, j, f);
    }
  }

  /** A table is what the link to it says. */
  lemma TableOfLink(m: Mem, cr3: nat, l: nat, k: nat)
    requires l < 4
    ensures Table(m, cr3, l, k) == var e := Link(m, cr3, l, k); if Links(e) then Some(PageBase(e)) else None
  {
    hide Load64, Entry, PageBase, Present, LargePage;
    ZeroAbsent();
  }

  lemma LinkedFrame(m: Mem, m2: Mem, cr3: nat, l: nat, k: nat, j: nat, f: nat)
    requires Linked(m, m2, cr3, l, k, j, f)
    ensures 2 <= l <= 4 && Key(l, k) && j < 512 && f % 4096 == 0 && f + 3 < PHYS_LIMIT
  {}

  /** One level of LinkedTable: from the tables above to the links in them. */
  lemma LinkedLink(m: Mem, m2: Mem, cr3: nat, l: nat, k: nat, j: nat, f: nat, l': nat, k': nat)
    requires Linked(m, m2, cr3, l, k, j, f) && l' < 4 && Key(l', k')
    requires Table(m2, cr3, l' + 1, k' / 512)
          == if l' + 1 == l - 1 && k' / 512 == 512 * k + j then Some(f) else Table(m, cr3, l' + 1, k' / 512)
    ensures Link(m2, cr3, l', k') == if l' == l - 1 && k' == 512 * k + j then f + 3 else Link(m, cr3, l', k')
  {
    hide Load64, Entry, Key, Table;
    ParentKey(l', k');
    if l' + 1 == l - 1 && k' / 512 == 512 * k + j {
      UnlinkedTable(m, cr3, l, k, j);
    } else {
      ChildOf(l, k, j, l', k');
    }
  }

  lemma ChildOf(l: nat, k: nat, j: nat, l': nat, k': nat)
    requires j < 512
    ensures l' + 1 == l && k' / 512 == k && k' % 512 == j <==> l' == l - 1 && k' == 512 * k + j
  {}

  /** Linking one empty frame adds exactly that table; every other table and
      every translation stays as it was. */
  lemma LinkedTree(m: Mem, m2: Mem, cr3: nat, l: nat, k: nat, j: nat, f: nat)
    requires Tree(m, cr3) && Linked(m, m2, cr3, l, k, j, f) && OffTables(m, cr3, f, 4096)
    ensures Tree(m2, cr3)
    ensures forall l': nat, k': nat | Key(l', k') ::
      Table(m2, cr3, l', k') == if l' == l - 1 && k' == 512 * k + j then Some(f) else Table(m, cr3, l', k')
    ensures (l - 1, 512 * k + j) !in Tables(m, cr3)
    ensures Tables(m2, cr3) == Tables(m, cr3) + {(l - 1, 512 * k + j)}
    ensures forall l': nat, k': nat | l' < 4 && Key(l', k') ::
      Link(m2, cr3, l', k') == if l' == l - 1 && k' == 512 * k + j then f + 3 else Link(m, cr3, l', k')
    ensures forall u: nat | u < VPN_LIMIT :: Leaf(m2, cr3, u) == Leaf(m, cr3, u) && Large(m2, cr3, u) == Large(m, cr3, u)
  {
    hide Load64, Table, Key, Entry, Link, Present, LargePage;
    ChildKey(l, k, j);
    forall l': nat, k': nat | Key(l', k')
      ensures Table(m2, cr3, l', k')
           == if l' == l - 1 && k' == 512 * k + j then Some(f) else Table(m, cr3, l', k')
      ensures l' < 4 ==>
        Link(m2, cr3, l', k') == if l' == l - 1 && k' == 512 * k + j then f + 3 else Link(m, cr3, l', k')
    {
      LinkedTable(m, m2, cr3, l, k, j, f, l', k');
    }
    FreshLink(f);
    LinkedTables(m, m2, cr3, l, k, j, f);
    forall u: nat | u < VPN_LIMIT
      ensures Leaf(m2, cr3, u) == Leaf(m, cr3, u) && Large(m2, cr3, u) == Large(m, cr3, u)
    {
      SamePage(u, u);
      UnlinkedTable(m, cr3, l, k, j);
      LargeKept(m, m2, cr3, u, l - 1, 512 * k + j, f + 3);
    }
  }

  /** One more link to a table makes no large page. */
  lemma LargeKept(m: Mem, m2: Mem, cr3: nat, u: nat, l: nat, k: nat, e: Word)
    requires u < VPN_LIMIT && 1 <= l <= 3 && Link(m, cr3, l, k) == 0 && TableEntry(e)
    requires forall l': nat, k': nat | l' < 4 && Key(l', k') ::
      Link(m2, cr3, l', k') == if l' == l && k' == k then e else Link(m, cr3, l', k')
    ensures Large(m2, cr3, u) == Large(m, cr3, u)
  {
    hide Link, Present, LargePage;
    SamePage(u, u);
    ParentKey(1, u / 512);
    ZeroAbsent();
  }

  lemma FreshLink(f: nat)
    requires f % 4096 == 0 && f < PHYS_LIMIT
    ensures f + 3 < PHYS_LIMIT && TableEntry(f + 3) && FrameOf(f + 3) == f && PageBase(f + 3) == f && Writes(f + 3)
  {
    FreshLinkOf(f / 4096);
    TableEntryTarget(f + 3);
  }

  lemma FreshLinkOf(q: nat)
    requires q < 0x100_0000_0000
    ensures 4096 * q + 3 < PHYS_LIMIT
    ensures (4096 * q + 3) / 128 == 32 * q && (4096 * q + 3) % 4096 == 3 && (4096 * q + 3) % 2 == 1
  {}

  lemma UnlinkedTable(m: Mem, cr3: nat, l: nat, k: nat, j: nat)
    requires 2 <= l && Key(l, k) && j < 512 && Table(m, cr3, l, k).Some?
    requires Entry(m, Table(m, cr3, l, k).value, j) == 0
    ensures Table(m, cr3, l - 1, 512 * k + j).None? && (l <= 4 ==> Link(m, cr3, l - 1, 512 * k + j) == 0)
  {
    ChildKey(l, k, j);
    ZeroAbsent();
  }

  lemma LinkedTables(m: Mem, m2: Mem, cr3: nat, l: nat, k: nat, j: nat, f: nat)
    requires Linked(m, m2, cr3, l, k, j, f)
    requires forall l': nat, k': nat | Key(l', k') ::
      Table(m2, cr3, l', k') == if l' == l - 1 && k' == 512 * k + j then Some(f) else Table(m, cr3, l', k')
    ensures (l - 1, 512 * k + j) !in Tables(m, cr3)
    ensures Tables(m2, cr3) == Tables(m, cr3) + {(l - 1, 512 * k + j)}
  {
    hide Load64, Table, Entry;
    ChildKey(l, k, j);
    UnlinkedTable(m, cr3, l, k, j);
  }
}
