/** MapVirtualPages as a function of memory and of the frames the firmware will
    hand out, with the invariants that make it correct. */
module PageMapping {
  import opened Memory
  import opened Options
  import opened PageTables

  /** A page-aligned physical address, which is what AllocatePages returns. */
  type Frame = f: nat | f % 4096 == 0 && f < PHYS_LIMIT

  /** Memory, and the frames AllocatePages will hand out, in order.  When it has
      none left the caller's pointer keeps its initial value NULL, since
      MapVirtualPages does not look at the status. */
  datatype Machine = Machine(mem: Mem, pool: seq<Frame>)

  // ------------------------------------------------------------ the function

  /** The table behind entry `j` of `table`, allocated and linked if missing. */
  function NextTable(s: Machine, table: nat, j: nat): (nat, Machine) {
    var e := Entry(s.mem, table, j);
    if e != 0 then (FrameOf(e), s)
    else
      var f: Frame := if s.pool == [] then 0 else s.pool[0];
      var pool := if s.pool == [] then [] else s.pool[1..];
      (f, Machine(Store64(Zero(s.mem, f, 4096), table + 8 * j, f + 3), pool))
  }

  /** The frames and flags a caller may pass: `|` is then addition. */
  predicate Mappable(phys: nat, n: nat, flags: nat) {
    phys % 4096 == 0 && phys + 4096 * n <= PHYS_LIMIT && flags < 4096
  }

  /** The level-1 table for page `v`, linking whatever is missing above it. */
  function LeafTable(s: Machine, cr3: nat, v: nat): (nat, Machine) {
    var (pml3, s3) := NextTable(s, cr3, v / 512 / 512 / 512 % 512);
    var (pml2, s2) := NextTable(s3, pml3, v / 512 / 512 % 512);
    NextTable(s2, pml2, v / 512 % 512)
  }

  function MapPages(s: Machine, cr3: nat, phys: nat, v: nat, n: nat, flags: nat): Machine
    requires Mappable(phys, n, flags)
    decreases n, n + 1
  {
    var (pml1, s1) := LeafTable(s, cr3, v);
    MapLoop(s1, cr3, pml1, phys, v, n, 0, flags)
  }

  /** The loop from iteration `i` on: one store, and a recursive call for all the
      remaining pages whenever the store went past the table's last entry. */
  function MapLoop(s: Machine, cr3: nat, pml1: nat, phys: nat, v: nat, n: nat, i: nat, flags: nat): Machine
    requires Mappable(phys, n, flags) && i <= n
    decreases n, n - i
  {
    if i == n then s
    else
      var s' := s.(mem := Store64(s.mem, pml1 + 8 * (v % 512 + i), phys + 4096 * i + flags));
      var s'' := if v % 512 + i > 511 then MapPages(s', cr3, phys + 4096 * i, v + i, n - i, flags) else s';
      MapLoop(s'', cr3, pml1, phys, v, n, i + 1, flags)
  }

  // -------------------------------------------------------------- invariants

  function Prefix(v: nat, l: nat): nat {
    match l
    case 1 => v / 512
    case 2 => v / 512 / 512
    case _ => v / 512 / 512 / 512
  }

  function Last(lo: nat, end: nat): nat { if lo < end then end - 1 else lo }

  /** The tables that serve the pages lo .. end (and `lo` itself if none). */
  ghost function Path(lo: nat, end: nat): set<(nat, nat)> {
    set l: nat, k: nat | 1 <= l <= 3 && k < 0x800_0000 && Prefix(lo, l) <= k <= Prefix(Last(lo, end), l) :: (l, k)
  }

  /** Free frames are distinct and no table lives in one. */
  ghost predicate PoolApart(s: Machine, cr3: nat) {
    && (forall i | 0 <= i < |s.pool| :: OffTables(s.mem, cr3, s.pool[i], 4096))
    && (forall i, j | 0 <= i < j < |s.pool| :: s.pool[i] != s.pool[j])
  }

  /** The firmware can supply every missing table of `path`. */
  ghost predicate Supplied(s: Machine, cr3: nat, path: set<(nat, nat)>) {
    |Tables(s.mem, cr3) + path| <= |s.pool| + |Tables(s.mem, cr3)|
  }

  /** `g` is, or may become, a table. */
  ghost predicate TableFrame(s: Machine, cr3: nat, g: nat) {
    g in s.pool || exists l: nat, k: nat :: Key(l, k) && Table(s.mem, cr3, l, k) == Some(g)
  }

  /** What the call takes for a table on the path is one: no large page, nothing
      set above bit 51, and no entry in use that is not present.  Links off the path
      may be anything. */
  ghost predicate Passable(m: Mem, cr3: nat, path: set<(nat, nat)>) {
    forall l: nat, k: nat | (l, k) in path && 1 <= l <= 3 && Key(l, k) && Link(m, cr3, l, k) != 0 ::
      TableEntry(Link(m, cr3, l, k))
  }

  /** The tables form a tree, those on the path can be followed, and the firmware can
      supply all that is missing for the pages lo .. end. */
  ghost predicate Stocked(s: Machine, cr3: nat, lo: nat, end: nat) {
    && lo <= end <= VPN_LIMIT && lo < VPN_LIMIT
    && Tree(s.mem, cr3)
    && PoolApart(s, cr3)
    && Passable(s.mem, cr3, Path(lo, end))
    && Supplied(s, cr3, Path(lo, end))
  }

  /** Links stay as they are or, from nothing, come to name a table that may be
      written. */
  ghost predicate LinksKept(m: Mem, m': Mem, cr3: nat) {
    forall l: nat, k: nat | 1 <= l <= 3 && Key(l, k) ::
      || Link(m', cr3, l, k) == Link(m, cr3, l, k)
      || (Link(m, cr3, l, k) == 0 && TableEntry(Link(m', cr3, l, k)) && Writes(Link(m', cr3, l, k)))
  }

  /** `s'` has every table of `s` and, from the front of the pool, one frame for
      each new table, all of them on `path`. */
  ghost predicate Evolved(s: Machine, s': Machine, cr3: nat, path: set<(nat, nat)>) {
    && Tree(s'.mem, cr3)
    && |s'.pool| <= |s.pool| && s'.pool == s.pool[|s.pool| - |s'.pool|..]
    && PoolApart(s', cr3)
    && (forall l: nat, k: nat | Key(l, k) && Table(s.mem, cr3, l, k).Some? ::
          Table(s'.mem, cr3, l, k) == Table(s.mem, cr3, l, k))
    && (forall l: nat, k: nat | Key(l, k) && Table(s.mem, cr3, l, k).None? && Table(s'.mem, cr3, l, k).Some? ::
          (l, k) in path && Table(s'.mem, cr3, l, k).value in s.pool)
    && |s.pool| + |Tables(s.mem, cr3)| == |s'.pool| + |Tables(s'.mem, cr3)|
    && LinksKept(s.mem, s'.mem, cr3)
  }

  /** `x` is in no table and no free frame. */
  ghost predicate OffFrames(s: Machine, cr3: nat, x: nat) {
    forall g: nat | TableFrame(s, cr3, g) :: x < g || g + 4096 <= x
  }

  ghost predicate SameBytes(s: Machine, s': Machine, cr3: nat) {
    forall x: nat | OffFrames(s, cr3, x) :: LoadByte(s'.mem, x) == LoadByte(s.mem, x)
  }

  ghost predicate SameLeaves(m: Mem, m': Mem, cr3: nat) {
    forall u: nat | u < VPN_LIMIT :: Leaf(m', cr3, u) == Leaf(m, cr3, u) && Large(m', cr3, u) == Large(m, cr3, u)
  }

  // ------------------------------------------------- how the invariants move

  lemma SubsetSize<T>(a: set<T>, b: set<T>)
    requires a <= b
    ensures |a| <= |b|
    ensures a != b ==> |a| < |b|
  {
    assert b == a + (b - a);
    assert |b| == |a| + |b - a|;
  }

  lemma TablesHas(m: Mem, cr3: nat, l: nat, k: nat)
    requires 1 <= l <= 3
    ensures Key(l, k) && Table(m, cr3, l, k).Some? <==> (l, k) in Tables(m, cr3)
  {}

  lemma EvolvedTables(s: Machine, s': Machine, cr3: nat, path: set<(nat, nat)>)
    requires Evolved(s, s', cr3, path)
    ensures Tables(s.mem, cr3) <= Tables(s'.mem, cr3) <= Tables(s.mem, cr3) + path
  {
    hide Table, Key, Tree, PoolApart;
  }

  lemma EvolvedFrames(s: Machine, s': Machine, cr3: nat, path: set<(nat, nat)>)
    requires Evolved(s, s', cr3, path)
    ensures forall g: nat | TableFrame(s', cr3, g) :: TableFrame(s, cr3, g)
  {
    hide Table, Key, Tree, PoolApart, Tables;
    assert forall f | f in s'.pool :: f in s.pool;
  }

  lemma EvolvedTrans(s: Machine, s1: Machine, s2: Machine, cr3: nat, path: set<(nat, nat)>)
    requires Evolved(s, s1, cr3, path) && Evolved(s1, s2, cr3, path)
    ensures Evolved(s, s2, cr3, path)
  {
    hide Table, Key, Tree, PoolApart, Tables;
    assert forall f | f in s1.pool :: f in s.pool;
  }

  lemma EvolvedStocked(s: Machine, s': Machine, cr3: nat, lo: nat, end: nat)
    requires Stocked(s, cr3, lo, end) && Evolved(s, s', cr3, Path(lo, end))
    ensures Stocked(s', cr3, lo, end)
  {
    hide Table, Key, Tree, PoolApart, Tables, Path;
    EvolvedTables(s, s', cr3, Path(lo, end));
    assert Tables(s'.mem, cr3) + Path(lo, end) == Tables(s.mem, cr3) + Path(lo, end);
  }

  lemma PathLater(lo: nat, lo': nat, end: nat)
    requires lo <= lo' < end
    ensures Path(lo', end) <= Path(lo, end)
  {
    assert forall l :: Prefix(lo, l) <= Prefix(lo', l);
  }

  lemma StockedLater(s: Machine, cr3: nat, lo: nat, lo': nat, end: nat)
    requires Stocked(s, cr3, lo, end) && lo <= lo' < end
    ensures Stocked(s, cr3, lo', end)
  {
    hide Table, Key, Tree, PoolApart, Tables, Path;
    PathLater(lo, lo', end);
    SubsetSize(Tables(s.mem, cr3) + Path(lo', end), Tables(s.mem, cr3) + Path(lo, end));
  }

  lemma EvolvedWider(s: Machine, s': Machine, cr3: nat, path: set<(nat, nat)>, wider: set<(nat, nat)>)
    requires Evolved(s, s', cr3, path) && path <= wider
    ensures Evolved(s, s', cr3, wider)
  {
    hide Table, Key, Tree, PoolApart, Tables;
  }

  lemma SameBytesTrans(s: Machine, s1: Machine, s2: Machine, cr3: nat, path: set<(nat, nat)>)
    requires SameBytes(s, s1, cr3) && SameBytes(s1, s2, cr3) && Evolved(s, s1, cr3, path)
    ensures SameBytes(s, s2, cr3)
  {
    hide TableFrame, Evolved, LoadByte;
    EvolvedFrames(s, s1, cr3, path);
  }

  /** Memory changes that leave every table entry above level 1 alone. */
  lemma StoreEvolved(s: Machine, m': Mem, cr3: nat, path: set<(nat, nat)>)
    requires Tree(s.mem, cr3) && PoolApart(s, cr3) && SameUpper(s.mem, m', cr3)
    ensures Evolved(s, s.(mem := m'), cr3, path)
  {
    hide Table, Key, Tree;
    SameTree(s.mem, m', cr3);
  }
}
