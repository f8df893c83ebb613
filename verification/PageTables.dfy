/** Four-level page tables in physical memory: how the processor walks them,
    what it means for them to form a tree, and how single stores change them. */
module PageTables {
  import opened Words
  import opened Memory
  import opened Options

  const VPN_LIMIT: nat := 0x10_0000_0000        // 2^36 pages of 48-bit virtual space
  const PHYS_LIMIT: nat := 0x10_0000_0000_0000  // 2^52, the architectural physical limit

  // ---------------------------------------------------------------- the walk

  function PageBase(e: Word): nat {
    e % PHYS_LIMIT / 4096 * 4096
  }

  predicate Present(e: Word) { e % 2 == 1 }

  predicate LargePage(e: Word) { e / 128 % 2 == 1 }

  /** Bytes of virtual space under one entry of a level-`l` table. */
  function Reach(l: nat): (r: nat)
    ensures r > 0
  {
    match l
    case 4 => 0x80_0000_0000
    case 3 => 0x4000_0000
    case 2 => 0x20_0000
    case _ => 0x1000
  }

  /** The entry of a level-`l` table that `va` selects. */
  function Index(va: nat, l: nat): nat { va / Reach(l) % 512 }

  /** Where a large-page entry of a level-`l` table sends `va`. */
  function LargeTarget(e: Word, l: nat, va: nat): nat {
    e % PHYS_LIMIT / Reach(l) * Reach(l) + va % Reach(l)
  }

  /** Entry `j` of the table at `t`. */
  function Entry(m: Mem, t: nat, j: nat): Word { Load64(m, t + 8 * j) }

  /** Linear-address translation as in the Intel SDM, Vol. 3A, section 4.5: the
      level-`l` table at `table` translates the 48-bit address `va`. */
  function Walk(m: Mem, table: nat, l: nat, va: nat): Option<nat>
    requires 1 <= l <= 4
    decreases l
  {
    var e := Entry(m, table, Index(va, l));
    if !Present(e) then None
    else if l == 1 then Some(PageBase(e) + va % 4096)
    else if LargePage(e) then
      if l <= 3 then Some(LargeTarget(e, l, va)) else None  // bit 7 is reserved at the top
    else Walk(m, PageBase(e), l - 1, va)
  }

  /** The bit that lets a page, or all under a table, be written. */
  predicate Writes(e: Word) { e / 2 % 2 == 1 }

  /** The walk of `va` gets to a page, and every entry on its way lets it be written. */
  predicate WalkWrites(m: Mem, table: nat, l: nat, va: nat)
    requires 1 <= l <= 4
    decreases l
  {
    var e := Entry(m, table, Index(va, l));
    && Present(e) && Writes(e)
    && (l == 1 || if LargePage(e) then l <= 3 else WalkWrites(m, PageBase(e), l - 1, va))
  }

  /** The three low bits that count, bit by bit: present, writable, large page. */
  lemma EntryBits(high: nat, large: nat, mid: nat, write: nat, present: nat)
    requires large < 2 && mid < 32 && write < 2 && present < 2 && 256 * high + 255 < U64
    ensures var e := 256 * high + 128 * large + 4 * mid + 2 * write + present;
            (Present(e) <==> present == 1) && (Writes(e) <==> write == 1) && (LargePage(e) <==> large == 1)
  {
    var e := 256 * high + 128 * large + 4 * mid + 2 * write + present;
    assert e / 2 == 2 * (64 * high + 32 * large + mid) + write;
    assert e / 128 == 2 * high + large;
  }

  /** Bits 12 to 51 name the page, whatever the bits around them. */
  lemma FrameBits(high: nat, page: nat, flags: nat)
    requires high < 4096 && page < 0x100_0000_0000 && flags < 4096
    ensures PageBase(high * PHYS_LIMIT + 4096 * page + flags) == 4096 * page
  {
    assert (high * PHYS_LIMIT + 4096 * page + flags) % PHYS_LIMIT == 4096 * page + flags;
  }

  /** A large page at `base` with any flags: its bytes follow each other. */
  lemma LargeBytes(l: nat, base: nat, flags: nat, va: nat)
    requires 2 <= l <= 3 && base % Reach(l) == 0 && flags < Reach(l) && base + flags < PHYS_LIMIT
    ensures LargeTarget(base + flags, l, va) == base + va % Reach(l)
  {}

  // ---------------------------------------------------------------- the tree

  /** A table is named by its level and the page-number prefix it serves. */
  predicate Key(l: nat, k: nat) {
    match l
    case 4 => k == 0
    case 3 => k < 512
    case 2 => k < 0x4_0000
    case 1 => k < 0x800_0000
    case _ => false
  }

  /** What MapVirtualPages takes for the address in a table entry. */
  function FrameOf(e: Word): nat { e - e % 4096 }

  /** What the processor takes for a link to a table: a present entry that does not
      map a large page. */
  predicate Links(e: Word) { Present(e) && !LargePage(e) }

  /** The frame of the level-`l` table for prefix `k`, if it is linked in. */
  function Table(m: Mem, cr3: nat, l: nat, k: nat): Option<nat>
    decreases 4 - l
  {
    if l >= 4 then Some(cr3)
    else
      match Table(m, cr3, l + 1, k / 512)
      case None => None
      case Some(t) =>
        var e := Entry(m, t, k % 512);
        if Links(e) then Some(PageBase(e)) else None
  }

  /** The page-table entry of page `v`; 0 while no table serves it. */
  function Leaf(m: Mem, cr3: nat, v: nat): Word {
    match Table(m, cr3, 1, v / 512)
    case None => 0
    case Some(t) => Entry(m, t, v % 512)
  }

  /** A link in which MapVirtualPages sees the table the processor sees. */
  predicate TableEntry(e: Word) {
    Present(e) && !LargePage(e) && e < PHYS_LIMIT
  }

  /** The entry that links the table of key (`l`, `k`) into its parent. */
  function Link(m: Mem, cr3: nat, l: nat, k: nat): Word
    requires l < 4
  {
    match Table(m, cr3, l + 1, k / 512)
    case None => 0
    case Some(t) => Entry(m, t, k % 512)
  }

  /** The large page that page `v` lies in: the level of the table that holds its
      entry, and the entry. */
  function Large(m: Mem, cr3: nat, v: nat): Option<(nat, Word)> {
    var e2, e1 := Link(m, cr3, 2, v / 512 / 512), Link(m, cr3, 1, v / 512);
    if Present(e2) && LargePage(e2) then Some((3, e2))
    else if Present(e1) && LargePage(e1) then Some((2, e1))
    else None
  }

  ghost predicate Unshared(m: Mem, cr3: nat) {
    forall l: nat, k: nat, l': nat, k': nat | Key(l, k) && Key(l', k') && Table(m, cr3, l, k).Some?
                          && Table(m, cr3, l, k) == Table(m, cr3, l', k') ::
      l == l' && k == k'
  }

  /** The tables form a tree: no frame serves two keys. */
  ghost predicate Tree(m: Mem, cr3: nat) {
    cr3 % 4096 == 0 && Unshared(m, cr3)
  }

  /** All linked tables below the root. */
  ghost function Tables(m: Mem, cr3: nat): set<(nat, nat)> {
    set l: nat, k: nat | 1 <= l <= 3 && k < 0x800_0000 && Key(l, k) && Table(m, cr3, l, k).Some? :: (l, k)
  }

  lemma ParentKey(l: nat, k: nat)
    requires l < 4 && Key(l, k)
    ensures Key(l + 1, k / 512)
  {}

  lemma ChildKey(l: nat, k: nat, j: nat)
    requires 2 <= l && Key(l, k) && j < 512
    ensures Key(l - 1, 512 * k + j) && (512 * k + j) / 512 == k && (512 * k + j) % 512 == j
  {}

  lemma TableAligned(m: Mem, cr3: nat, l: nat, k: nat)
    requires cr3 % 4096 == 0
    ensures Table(m, cr3, l, k).Some? ==> Table(m, cr3, l, k).value % 4096 == 0
  {
    hide Load64;
  }

  /** Two tables never overlap. */
  lemma TablesApart(m: Mem, cr3: nat, l: nat, k: nat, l': nat, k': nat)
    requires Tree(m, cr3)
    requires Key(l, k) && Key(l', k') && (l, k) != (l', k')
    requires Table(m, cr3, l, k).Some? && Table(m, cr3, l', k').Some?
    ensures var t, t' := Table(m, cr3, l, k).value, Table(m, cr3, l', k').value;
            t + 4096 <= t' || t' + 4096 <= t
  {
    hide Table, Key;
    TableAligned(m, cr3, l, k);
    TableAligned(m, cr3, l', k');
    AlignedApart(Table(m, cr3, l, k).value, Table(m, cr3, l', k').value);
  }

  lemma AlignedApart(a: nat, b: nat)
    requires a % 4096 == 0 && b % 4096 == 0 && a != b
    ensures a + 4096 <= b || b + 4096 <= a
  {}

  // ------------------------------------------------- the walk meets the tree

  /** The processor's walk ends at the large page, or else at the leaf entry. */
  lemma WalkLeaf(m: Mem, cr3: nat, va: nat)
    requires va < 0x1_0000_0000_0000
    ensures Walk(m, cr3, 4, va)
         == match Large(m, cr3, va / 4096)
            case Some((l, e)) => Some(LargeTarget(e, l, va))
            case None =>
              var e := Leaf(m, cr3, va / 4096);
              if Present(e) then Some(PageBase(e) + va % 4096) else None
  {
    IndexOfPage(va);
    var v := va / 4096;
    WalkPath(m, cr3, va, v, v / 512, v / 512 / 512, v / 512 / 512 / 512);
  }

  lemma WalkPath(m: Mem, cr3: nat, va: nat, v: nat, k1: nat, k2: nat, k3: nat)
    requires Key(1, k1) && Key(2, k2) && Key(3, k3)
    requires k1 == v / 512 && k2 == k1 / 512 && k3 == k2 / 512
    requires Index(va, 1) == v % 512 && Index(va, 2) == k1 % 512
    requires Index(va, 3) == k2 % 512 && Index(va, 4) == k3 % 512
    ensures Walk(m, cr3, 4, va)
         == match Large(m, cr3, v)
            case Some((l, e)) => Some(LargeTarget(e, l, va))
            case None =>
              var e := Leaf(m, cr3, v);
              if Present(e) then Some(PageBase(e) + va % 4096) else None
  {
    hide Load64, PageBase, Present, LargePage, LargeTarget, Index;
    ZeroAbsent();
    WalkStep(m, cr3, 4, k3, va);
    if Table(m, cr3, 3, k3).Some? {
      WalkStep(m, cr3, 3, k2, va);
      if Table(m, cr3, 2, k2).Some? {
        WalkStep(m, cr3, 2, k1, va);
      }
    }
  }

  /** What writing takes, entry by entry along the path. */
  lemma WritesPath(m: Mem, cr3: nat, va: nat)
    requires va < 0x1_0000_0000_0000
    ensures var v := va / 4096;
            var e3, e2, e1 := Link(m, cr3, 3, v / 512 / 512 / 512), Link(m, cr3, 2, v / 512 / 512), Link(m, cr3, 1, v / 512);
            WalkWrites(m, cr3, 4, va) <==>
              && Links(e3) && Writes(e3)
              && Present(e2) && Writes(e2)
              && (LargePage(e2) || (&& Present(e1) && Writes(e1)
                                    && (LargePage(e1) || (Present(Leaf(m, cr3, v)) && Writes(Leaf(m, cr3, v))))))
  {
    hide Load64, PageBase, Present, LargePage, Writes, Index;
    IndexOfPage(va);
    PathKeys(va / 4096);
    ZeroAbsent();
    var k1, k2, k3 := va / 4096 / 512, va / 4096 / 512 / 512, va / 4096 / 512 / 512 / 512;
    WritesStep(m, cr3, 4, k3, va);
    if Table(m, cr3, 3, k3).Some? {
      WritesStep(m, cr3, 3, k2, va);
      if Table(m, cr3, 2, k2).Some? {
        WritesStep(m, cr3, 2, k1, va);
      }
    }
  }

  lemma PathKeys(v: nat)
    requires v < VPN_LIMIT
    ensures Key(1, v / 512) && Key(2, v / 512 / 512) && Key(3, v / 512 / 512 / 512)
    ensures v / 512 / 512 / 512 / 512 == 0
  {}

  lemma WritesStep(m: Mem, cr3: nat, l: nat, k: nat, va: nat)
    requires 2 <= l <= 4 && Key(l - 1, k) && Index(va, l) == k % 512
    requires Table(m, cr3, l, k / 512).Some?
    ensures var e := Link(m, cr3, l - 1, k);
            WalkWrites(m, Table(m, cr3, l, k / 512).value, l, va) <==>
              && Present(e) && Writes(e)
              && match Table(m, cr3, l - 1, k)
                 case Some(t) => WalkWrites(m, t, l - 1, va)
                 case None => LargePage(e) && l <= 3
  {
    hide Load64, PageBase, Present, LargePage, Writes, Index;
  }

  lemma ZeroAbsent()
    ensures !Present(0) && !LargePage(0)
  {}

  lemma IndexOfPage(va: nat)
    ensures var v := va / 4096;
            && Index(va, 1) == v % 512
            && Index(va, 2) == v / 512 % 512
            && Index(va, 3) == v / 512 / 512 % 512
            && Index(va, 4) == v / 512 / 512 / 512 % 512
  {}

  /** One level of the walk follows the link to the table of prefix `k`, or ends. */
  lemma WalkStep(m: Mem, cr3: nat, l: nat, k: nat, va: nat)
    requires 2 <= l <= 4 && Key(l - 1, k)
    requires Index(va, l) == k % 512
    requires Table(m, cr3, l, k / 512).Some?
    ensures Walk(m, Table(m, cr3, l, k / 512).value, l, va)
         == match Table(m, cr3, l - 1, k)
            case Some(t) => Walk(m, t, l - 1, va)
            case None =>
              var e := Link(m, cr3, l - 1, k);
              if l <= 3 && Present(e) && LargePage(e) then Some(LargeTarget(e, l, va)) else None
  {
    hide Load64, PageBase, Present, LargePage, LargeTarget, Index;
  }

  lemma TableEntryTarget(e: Word)
    requires TableEntry(e)
    ensures PageBase(e) == FrameOf(e)
  {}

  // ------------------------------------------------------- effect of a store

  /** `m'` has the same entries as `m` in every table above level 1. */
  ghost predicate SameUpper(m: Mem, m': Mem, cr3: nat) {
    forall l: nat, k: nat, j: nat | 2 <= l && Key(l, k) && Table(m, cr3, l, k).Some? && j < 512 ::
      Entry(m', Table(m, cr3, l, k).value, j) == Entry(m, Table(m, cr3, l, k).value, j)
  }

  lemma {:induction false} SameTables(m: Mem, m': Mem, cr3: nat, l: nat, k: nat)
    requires SameUpper(m, m', cr3) && Key(l, k)
    ensures Table(m', cr3, l, k) == Table(m, cr3, l, k)
    ensures l < 4 ==> Link(m', cr3, l, k) == Link(m, cr3, l, k)
    decreases 4 - l
  {
    if l < 4 {
      ParentKey(l, k);
      SameTables(m, m', cr3, l + 1, k / 512);
    }
  }

  lemma SameTree(m: Mem, m': Mem, cr3: nat)
    requires SameUpper(m, m', cr3)
    ensures forall l: nat, k: nat | Key(l, k) :: Table(m', cr3, l, k) == Table(m, cr3, l, k)
    ensures forall l: nat, k: nat | l < 4 && Key(l, k) :: Link(m', cr3, l, k) == Link(m, cr3, l, k)
    ensures Tree(m, cr3) ==> Tree(m', cr3)
    ensures Tables(m', cr3) == Tables(m, cr3)
  {
    hide Load64, Table, Link, SameUpper;
    forall l: nat, k: nat | Key(l, k)
      ensures Table(m', cr3, l, k) == Table(m, cr3, l, k)
      ensures l < 4 ==> Link(m', cr3, l, k) == Link(m, cr3, l, k)
    {
      SameTables(m, m', cr3, l, k);
    }
  }

  lemma SameLarge(m: Mem, m': Mem, cr3: nat)
    requires forall l: nat, k: nat | l < 4 && Key(l, k) :: Link(m', cr3, l, k) == Link(m, cr3, l, k)
    ensures forall v: nat | v < VPN_LIMIT :: Large(m', cr3, v) == Large(m, cr3, v)
  {
    hide Link, Present, LargePage;
    forall v: nat | v < VPN_LIMIT
      ensures Large(m', cr3, v) == Large(m, cr3, v)
    {
      SamePage(v, v);
      ParentKey(1, v / 512);
    }
  }

  /** Bytes `a .. a+n` touch no table. */
  ghost predicate OffTables(m: Mem, cr3: nat, a: nat, n: nat) {
    forall l: nat, k: nat | Key(l, k) && Table(m, cr3, l, k).Some? ::
      a + n <= Table(m, cr3, l, k).value || Table(m, cr3, l, k).value + 4096 <= a
  }

  /** A store outside every table changes no table and no translation. */
  lemma StoreOffTables(m: Mem, cr3: nat, a: nat, w: Word)
    requires Tree(m, cr3) && OffTables(m, cr3, a, 8)
    ensures var m' := Store64(m, a, w);
            && SameUpper(m, m', cr3)
            && forall v: nat | v < VPN_LIMIT :: Leaf(m', cr3, v) == Leaf(m, cr3, v) && Large(m', cr3, v) == Large(m, cr3, v)
  {
    var m' := Store64(m, a, w);
    forall l: nat, k: nat, j: nat | Key(l, k) && Table(m, cr3, l, k).Some? && j < 512
      ensures Entry(m', Table(m, cr3, l, k).value, j) == Entry(m, Table(m, cr3, l, k).value, j)
    {
      Store64Other(m, a, w, Table(m, cr3, l, k).value + 8 * j);
    }
    SameTree(m, m', cr3);
    SameLarge(m, m', cr3);
  }

  lemma EntriesApart(m: Mem, cr3: nat, l: nat, k: nat, j: nat, l': nat, k': nat, j': nat)
    requires Tree(m, cr3) && Key(l, k) && Key(l', k') && (l, k, j) != (l', k', j') && j < 512 && j' < 512
    requires Table(m, cr3, l, k).Some? && Table(m, cr3, l', k').Some?
    ensures var a, a' := Table(m, cr3, l, k).value + 8 * j, Table(m, cr3, l', k').value + 8 * j';
            a + 8 <= a' || a' + 8 <= a
  {
    hide *;
    if (l', k') != (l, k) {
      TablesApart(m, cr3, l', k', l, k);
    }
  }

  /** A store to entry `j` of one table changes no other entry of any table. */
  lemma StoreEntry(m: Mem, cr3: nat, l: nat, k: nat, j: nat, w: Word)
    requires Tree(m, cr3) && Key(l, k) && Table(m, cr3, l, k).Some? && j < 512
    ensures var m' := Store64(m, Table(m, cr3, l, k).value + 8 * j, w);
            && Entry(m', Table(m, cr3, l, k).value, j) == w
            && forall l': nat, k': nat, j': nat
                 | Key(l', k') && Table(m, cr3, l', k').Some? && j' < 512 && (l', k', j') != (l, k, j) ::
                 Entry(m', Table(m, cr3, l', k').value, j') == Entry(m, Table(m, cr3, l', k').value, j')
  {
    hide Load64, Store64, Table, Key, Tree;
    var a := Table(m, cr3, l, k).value + 8 * j;
    Store64Load64(m, a, w);
    forall l': nat, k': nat, j': nat
      | Key(l', k') && Table(m, cr3, l', k').Some? && j' < 512 && (l', k', j') != (l, k, j)
      ensures Entry(Store64(m, a, w), Table(m, cr3, l', k').value, j') == Entry(m, Table(m, cr3, l', k').value, j')
    {
      EntriesApart(m, cr3, l', k', j', l, k, j);
      Store64Other(m, a, w, Table(m, cr3, l', k').value + 8 * j');
    }
  }

  lemma SamePage(u: nat, v: nat)
    requires u < VPN_LIMIT
    ensures Key(1, u / 512)
    ensures u / 512 == v / 512 && u % 512 == v % 512 ==> u == v
  {}

  /** A store into a level-1 table changes that one page's entry. */
  lemma StoreLeaf(m: Mem, cr3: nat, v: nat, w: Word)
    requires Tree(m, cr3) && v < VPN_LIMIT && Table(m, cr3, 1, v / 512).Some?
    ensures var m' := Store64(m, Table(m, cr3, 1, v / 512).value + 8 * (v % 512), w);
            && SameUpper(m, m', cr3)
            && forall u: nat | u < VPN_LIMIT ::
                 && Leaf(m', cr3, u) == (if u == v then w else Leaf(m, cr3, u))
                 && Large(m', cr3, u) == Large(m, cr3, u)
  {
    hide Load64, Store64, Table, Key, Tree, Large;
    var m' := Store64(m, Table(m, cr3, 1, v / 512).value + 8 * (v % 512), w);
    SamePage(v, v);
    StoreEntry(m, cr3, 1, v / 512, v % 512, w);
    SameTree(m, m', cr3);
    SameLarge(m, m', cr3);
    forall u: nat | u < VPN_LIMIT
      ensures Leaf(m', cr3, u) == if u == v then w else Leaf(m, cr3, u)
    {
      SamePage(u, v);
      SameTables(m, m', cr3, 1, u / 512);
    }
  }
}
