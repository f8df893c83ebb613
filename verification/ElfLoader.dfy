/** Sizing and placing the loadable segments of an ELF image. */
module ElfLoader {
  import opened Words
  import opened Memory

  const PT_LOAD := 1

  datatype Phdr = Phdr(ptype: nat, offset: nat, vaddr: Word, filesz: Word, memsz: Word) {
    predicate Load() { ptype == 1 }

    /** The end of the segment in 64-bit arithmetic. */
    function End(): Word { (vaddr + memsz) % U64 }
  }

  // ------------------------------------------------------------------ sizing

  ghost predicate IsUpper(phdrs: seq<Phdr>, n: nat, top: nat)
    requires n <= |phdrs|
  {
    && (forall i | 0 <= i < n && phdrs[i].Load() :: phdrs[i].End() <= top)
    && (top == 0 || exists i :: 0 <= i < n && phdrs[i].Load() && phdrs[i].End() == top)
  }

  ghost predicate IsLower(phdrs: seq<Phdr>, n: nat, low: nat)
    requires n <= |phdrs|
  {
    && (forall i | 0 <= i < n && phdrs[i].Load() :: low <= phdrs[i].vaddr)
    && (low == U64 - 1 || exists i :: 0 <= i < n && phdrs[i].Load() && phdrs[i].vaddr == low)
  }

  /** EFI_SIZE_TO_PAGES. */
  function SizeToPages(size: nat): nat {
    size / 4096 + if size % 4096 != 0 then 1 else 0
  }

  /** The extent of the loadable segments and the pages to allocate for it. */
  method ImageExtent(phdrs: seq<Phdr>) returns (virtSize: Word, virtMin: Word, pages: nat)
    ensures IsUpper(phdrs, |phdrs|, virtSize) && IsLower(phdrs, |phdrs|, virtMin)
    ensures virtMin <= virtSize ==>
      forall n: nat :: virtSize <= virtMin + 4096 * n <==> pages <= n
    ensures (forall i | 0 <= i < |phdrs| :: !phdrs[i].Load()) ==> pages == 1
  {
    hide SizeToPages, Phdr.End;
    virtSize, virtMin := 0, U64 - 1;
    for i := 0 to |phdrs|
      invariant IsUpper(phdrs, i, virtSize) && IsLower(phdrs, i, virtMin)
    {
      if phdrs[i].ptype == PT_LOAD {
        var end := phdrs[i].End();
        virtSize := if virtSize > end then virtSize else end;
        virtMin := if virtMin < phdrs[i].vaddr then virtMin else phdrs[i].vaddr;
      }
    }
    pages := SizeToPages(Minus(virtSize, virtMin));
    ExtentPages(virtSize, virtMin);
  }

  /** Subtraction in 64-bit arithmetic. */
  function Minus(a: Word, b: Word): Word { (a - b) % U64 }

  /** SizeToPages is the least number of pages that covers `size` bytes. */
  lemma LeastPages(size: nat)
    ensures forall n: nat :: size <= 4096 * n <==> SizeToPages(size) <= n
  {
    var q, r := size / 4096, size % 4096;
    assert size == 4096 * q + r;
  }

  /** The same for an extent; one page for the extent that is left when there are
      no loadable segments. */
  lemma ExtentPages(top: Word, low: Word)
    ensures low <= top ==> forall n: nat :: top <= low + 4096 * n <==> SizeToPages(Minus(top, low)) <= n
    ensures SizeToPages(Minus(0, U64 - 1)) == 1
  {
    if low <= top {
      LeastPages(top - low);
    }
  }

  // --------------------------------------------------------------- placement

  /** Where the loader puts a segment: relative to header 0. */
  function Place(base: Word, first: Phdr, ph: Phdr): Word {
    (base + (ph.vaddr - first.vaddr)) % U64
  }

  /** What Read delivers: less than asked for when the file ends. */
  function FileData(file: seq<Byte>, ph: Phdr): seq<Byte> {
    if ph.offset >= |file| then []
    else if ph.offset + ph.filesz <= |file| then file[ph.offset..ph.offset + ph.filesz]
    else file[ph.offset..]
  }

  /** As much of what is asked for as the file has. */
  lemma ReadDelivers(file: seq<Byte>, ph: Phdr)
    ensures |FileData(file, ph)| <= ph.filesz
    ensures |FileData(file, ph)| < ph.filesz ==> ph.offset + |FileData(file, ph)| == |file| || (FileData(file, ph) == [] && |file| <= ph.offset)
    ensures forall i | 0 <= i < |FileData(file, ph)| :: ph.offset + i < |file| && FileData(file, ph)[i] == file[ph.offset + i]
  {}

  function At(data: seq<Byte>, a: nat, x: nat): Byte
    requires a <= x < a + |data|
  {
    data[x - a]
  }

  function Copy(m: Mem, a: nat, data: seq<Byte>): Mem {
    m + map x: nat | a <= x < a + |data| :: At(data, a, x)
  }

  /** Memory after the first `n` headers have been processed. */
  function Loaded(m: Mem, phdrs: seq<Phdr>, file: seq<Byte>, base: Word, n: nat): Mem
    requires n <= |phdrs|
  {
    if n == 0 then m
    else
      var before := Loaded(m, phdrs, file, base, n - 1);
      var ph := phdrs[n - 1];
      if ph.Load() && ph.filesz != 0 then Copy(before, Place(base, phdrs[0], ph), FileData(file, ph)) else before
  }

  /** Header `n` is the first one whose segment cannot be read. */
  ghost predicate FirstBroken(phdrs: seq<Phdr>, broken: set<nat>, n: nat)
    requires n < |phdrs|
  {
    phdrs[n].Load() && n in broken && forall i | 0 <= i < n && phdrs[i].Load() :: i !in broken
  }

  class Loader {
    var mem: Mem

    constructor (mem: Mem)
      ensures this.mem == mem
    {
      this.mem := mem;
    }

    /** Reads every loadable segment into place; `broken` are the headers whose
        SetPosition or Read the firmware fails. */
    method LoadSegments(phdrs: seq<Phdr>, file: seq<Byte>, base: Word, broken: set<nat>) returns (ok: bool)
      modifies this
      ensures ok <==> forall i: nat | i < |phdrs| && phdrs[i].Load() :: i !in broken
      ensures ok ==> mem == Loaded(old(mem), phdrs, file, base, |phdrs|)
      ensures !ok ==> exists n: nat :: n < |phdrs| && FirstBroken(phdrs, broken, n) && mem == Loaded(old(mem), phdrs, file, base, n)
    {
      hide Copy, FileData, Place;
      for i := 0 to |phdrs|
        invariant forall j: nat | j < i && phdrs[j].Load() :: j !in broken
        invariant mem == Loaded(old(mem), phdrs, file, base, i)
      {
        var rawDataSize := phdrs[i].filesz;
        var sectionAddress := Place(base, phdrs[0], phdrs[i]);
        if phdrs[i].ptype == PT_LOAD {
          if i in broken {
            assert FirstBroken(phdrs, broken, i);
            return false;
          }
          if rawDataSize != 0 {
            mem := Copy(mem, sectionAddress, FileData(file, phdrs[i]));
          }
        }
      }
      return true;
    }
  }

  /** The image is laid out as the loader expects: no segment wraps around, overlaps
      another or claims bytes the file lacks. */
  ghost predicate WellLaid(phdrs: seq<Phdr>, file: seq<Byte>) {
    && 0 < |phdrs|
    && (forall i | 0 <= i < |phdrs| && phdrs[i].Load() :: Sound(phdrs[i], file))
    && (forall i, j | 0 <= i < j < |phdrs| && phdrs[i].Load() && phdrs[j].Load() :: Disjoint(phdrs[i], phdrs[j]))
  }

  predicate Sound(ph: Phdr, file: seq<Byte>) {
    ph.vaddr + ph.memsz < U64 && ph.filesz <= ph.memsz && ph.offset + ph.filesz <= |file|
  }

  predicate Disjoint(a: Phdr, b: Phdr) {
    a.vaddr + a.memsz <= b.vaddr || b.vaddr + b.memsz <= a.vaddr
  }

  /** The segment lies in the `pages` pages at `base`. */
  predicate Inside(base: Word, pages: nat, first: Phdr, ph: Phdr) {
    base <= Place(base, first, ph) && Place(base, first, ph) + ph.memsz <= base + 4096 * pages
  }

  /** The loader keeps every segment inside the pages it allocated exactly when,
      counted from header 0 whatever its type, they end within them.  When header 0
      is the lowest loadable segment they do. */
  lemma PlacementExact(phdrs: seq<Phdr>, file: seq<Byte>, base: Word, virtSize: Word, virtMin: Word)
    requires WellLaid(phdrs, file) && exists i :: 0 <= i < |phdrs| && phdrs[i].Load()
    requires IsUpper(phdrs, |phdrs|, virtSize) && IsLower(phdrs, |phdrs|, virtMin)
    requires base + 4096 * SizeToPages(virtSize - virtMin) <= 0x10_0000_0000_0000  // physical addresses have 52 bits
    ensures virtMin <= virtSize
    ensures (forall i | 0 <= i < |phdrs| && phdrs[i].Load() ::
               Inside(base, SizeToPages(virtSize - virtMin), phdrs[0], phdrs[i]))
       <==> Minus(virtMin, phdrs[0].vaddr) + (virtSize - virtMin) <= 4096 * SizeToPages(virtSize - virtMin)
    ensures phdrs[0].vaddr == virtMin ==>
      Minus(virtMin, phdrs[0].vaddr) + (virtSize - virtMin) <= 4096 * SizeToPages(virtSize - virtMin)
  {
    hide Inside, Disjoint, SizeToPages, Minus, Phdr.End;
    Ends(phdrs, file, virtSize, virtMin);
    var pages := SizeToPages(virtSize - virtMin);
    LeastPages(virtSize - virtMin);
    assert virtSize - virtMin <= 4096 * pages;
    MinusSelf(virtMin);
    if Minus(virtMin, phdrs[0].vaddr) + (virtSize - virtMin) <= 4096 * pages {
      forall i | 0 <= i < |phdrs| && phdrs[i].Load()
        ensures Inside(base, pages, phdrs[0], phdrs[i])
      {
        EndIs(phdrs[i], file);
        InsideWhen(base, pages, phdrs[0], phdrs[i], virtMin, virtSize);
      }
    }
    if forall i | 0 <= i < |phdrs| && phdrs[i].Load() :: Inside(base, pages, phdrs[0], phdrs[i]) {
      var i :| 0 <= i < |phdrs| && phdrs[i].Load() && phdrs[i].vaddr == virtMin;
      var j :| 0 <= j < |phdrs| && phdrs[j].Load() && phdrs[j].End() == virtSize;
      EndIs(phdrs[j], file);
      EndsInside(base, pages, phdrs[0], phdrs[i], phdrs[j]);
    }
  }

  lemma MinusSelf(a: Word)
    ensures Minus(a, a) == 0
  {}

  lemma EndIs(ph: Phdr, file: seq<Byte>)
    requires Sound(ph, file)
    ensures ph.End() == ph.vaddr + ph.memsz
  {}

  /** Both folds stop at a loadable segment. */
  lemma Ends(phdrs: seq<Phdr>, file: seq<Byte>, virtSize: Word, virtMin: Word)
    requires WellLaid(phdrs, file) && exists i :: 0 <= i < |phdrs| && phdrs[i].Load()
    requires IsUpper(phdrs, |phdrs|, virtSize) && IsLower(phdrs, |phdrs|, virtMin)
    ensures virtMin <= virtSize
    ensures exists i :: 0 <= i < |phdrs| && phdrs[i].Load() && phdrs[i].vaddr == virtMin
    ensures exists j :: 0 <= j < |phdrs| && phdrs[j].Load() && phdrs[j].End() == virtSize
  {
    hide Disjoint, Phdr.End;
    var i :| 0 <= i < |phdrs| && phdrs[i].Load();
    assert Sound(phdrs[i], file);
    EndIs(phdrs[i], file);
    assert virtMin <= phdrs[i].vaddr <= phdrs[i].End() <= virtSize;
  }

  lemma InsideWhen(base: Word, pages: nat, first: Phdr, ph: Phdr, low: Word, top: Word)
    requires low <= ph.vaddr && ph.vaddr + ph.memsz <= top && base + 4096 * pages < U64
    requires Minus(low, first.vaddr) + (top - low) <= 4096 * pages
    ensures Inside(base, pages, first, ph)
  {
    PlaceFrom(base, first, ph, low);
  }

  /** Where a segment is placed, counted from an address below it. */
  lemma PlaceFrom(base: Word, first: Phdr, ph: Phdr, low: Word)
    requires low <= ph.vaddr
    ensures var a := base + Minus(low, first.vaddr) + (ph.vaddr - low);
            && (a < U64 ==> Place(base, first, ph) == a)
            && (U64 <= a < 2 * U64 ==> Place(base, first, ph) == a - U64)
  {
    var d := low - first.vaddr;
    assert Minus(low, first.vaddr) == if d >= 0 then d else d + U64;
    var b := base + (ph.vaddr - first.vaddr);
    assert b + U64 > 0 && b < 2 * U64;
    assert Place(base, first, ph) == b % U64;
  }

  lemma EndsInside(base: Word, pages: nat, first: Phdr, low: Phdr, high: Phdr)
    requires base + 4096 * pages <= 0x10_0000_0000_0000 && low.vaddr <= high.vaddr
    requires high.vaddr + high.memsz - low.vaddr <= 4096 * pages
    requires Inside(base, pages, first, low) && Inside(base, pages, first, high)
    ensures Minus(low.vaddr, first.vaddr) + (high.vaddr + high.memsz - low.vaddr) <= 4096 * pages
  {
    PlaceFrom(base, first, low, low.vaddr);
    PlaceFrom(base, first, high, low.vaddr);
  }

  // ------------------------------------------------------------------ memory

  lemma CopyByte(m: Mem, a: nat, data: seq<Byte>, x: nat)
    ensures LoadByte(Copy(m, a, data), x) == if a <= x < a + |data| then data[x - a] else LoadByte(m, x)
  {}

  /** No segment is placed across the end of the address space. */
  ghost predicate Placed(phdrs: seq<Phdr>, base: Word)
    requires 0 < |phdrs|
  {
    forall i | 0 <= i < |phdrs| && phdrs[i].Load() :: Place(base, phdrs[0], phdrs[i]) + phdrs[i].memsz <= U64
  }

  /** Disjoint segments are placed apart. */
  lemma PlacedApart(base: Word, first: Phdr, a: Phdr, b: Phdr)
    requires Disjoint(a, b) && a.vaddr + a.memsz < U64 && b.vaddr + b.memsz < U64
    requires Place(base, first, a) + a.memsz <= U64 && Place(base, first, b) + b.memsz <= U64
    ensures Place(base, first, a) + a.memsz <= Place(base, first, b) || Place(base, first, b) + b.memsz <= Place(base, first, a)
  {
    if a.vaddr <= b.vaddr {
      PlaceLater(base, first, a, b);
    } else {
      PlaceLater(base, first, b, a);
    }
  }

  lemma PlaceLater(base: Word, first: Phdr, a: Phdr, b: Phdr)
    requires a.vaddr <= b.vaddr
    ensures var p, q := Place(base, first, a), Place(base, first, b);
            q == p + (b.vaddr - a.vaddr) || q == p + (b.vaddr - a.vaddr) - U64
  {
    var d := base + (a.vaddr - first.vaddr);
    var e := b.vaddr - a.vaddr;
    assert Place(base, first, b) == (d + e) % U64;
    SumRem(d, e);
  }

  lemma SumRem(d: int, e: nat)
    requires e < U64
    ensures (d + e) % U64 == d % U64 + e || (d + e) % U64 == d % U64 + e - U64
  {
    var q, r := d / U64, d % U64;
    assert d == U64 * q + r;
    if r + e < U64 {
      Remainder(d + e, q, r + e);
    } else {
      Remainder(d + e, q + 1, r + e - U64);
    }
  }

  lemma Remainder(n: int, q: int, r: nat)
    requires n == U64 * q + r && r < U64
    ensures n % U64 == r
  {}

  /** One header changes exactly the bytes read for it. */
  lemma LoadedStep(m: Mem, phdrs: seq<Phdr>, file: seq<Byte>, base: Word, n: nat, x: nat)
    requires 0 < n <= |phdrs| && WellLaid(phdrs, file)
    ensures var ph := phdrs[n - 1];
            var before := LoadByte(Loaded(m, phdrs, file, base, n - 1), x);
            var start := Place(base, phdrs[0], ph);
            LoadByte(Loaded(m, phdrs, file, base, n), x)
              == if ph.Load() && start <= x < start + ph.filesz && ph.offset + (x - start) < |file|
                 then file[ph.offset + (x - start)] else before
  {
    hide LoadByte, Copy, Place, Disjoint;
    var ph := phdrs[n - 1];
    if ph.Load() {
      assert Sound(ph, file);
      CopyByte(Loaded(m, phdrs, file, base, n - 1), Place(base, phdrs[0], ph), FileData(file, ph), x);
    }
  }

  /** Each segment's bytes are the file's; the rest of it keeps what memory held. */
  lemma {:induction false} LoadedSegment(m: Mem, phdrs: seq<Phdr>, file: seq<Byte>, base: Word, n: nat, k: nat, o: nat)
    requires k < |phdrs| && n <= |phdrs| && WellLaid(phdrs, file) && Placed(phdrs, base)
    requires phdrs[k].Load() && o < phdrs[k].memsz
    ensures phdrs[k].offset + phdrs[k].filesz <= |file|
    ensures LoadByte(Loaded(m, phdrs, file, base, n), Place(base, phdrs[0], phdrs[k]) + o)
         == if o < phdrs[k].filesz && k < n then file[phdrs[k].offset + o]
            else LoadByte(m, Place(base, phdrs[0], phdrs[k]) + o)
  {
    hide LoadByte, Loaded, Place, Disjoint;
    var ph := phdrs[k];
    assert Sound(ph, file);
    if n == 0 {
      NothingLoaded(m, phdrs, file, base);
    } else {
      LoadedSegment(m, phdrs, file, base, n - 1, k, o);
      LoadedStep(m, phdrs, file, base, n, Place(base, phdrs[0], ph) + o);
      var other := phdrs[n - 1];
      if other.Load() && n - 1 != k {
        assert Sound(other, file);
        DisjointEither(phdrs, file, k, n - 1);
        PlacedApart(base, phdrs[0], ph, other);
      }
    }
  }

  lemma DisjointEither(phdrs: seq<Phdr>, file: seq<Byte>, i: nat, j: nat)
    requires WellLaid(phdrs, file) && i < |phdrs| && j < |phdrs| && i != j && phdrs[i].Load() && phdrs[j].Load()
    ensures Disjoint(phdrs[i], phdrs[j])
  {
    hide Sound;
    if j < i {
      assert Disjoint(phdrs[j], phdrs[i]);
    }
  }

  lemma NothingLoaded(m: Mem, phdrs: seq<Phdr>, file: seq<Byte>, base: Word)
    ensures Loaded(m, phdrs, file, base, 0) == m
  {}

  /** Bytes of no segment are left alone. */
  lemma {:induction false} LoadedElsewhere(m: Mem, phdrs: seq<Phdr>, file: seq<Byte>, base: Word, n: nat, x: nat)
    requires n <= |phdrs| && WellLaid(phdrs, file)
    requires forall i | 0 <= i < n && phdrs[i].Load() ::
      x < Place(base, phdrs[0], phdrs[i]) || Place(base, phdrs[0], phdrs[i]) + phdrs[i].memsz <= x
    ensures LoadByte(Loaded(m, phdrs, file, base, n), x) == LoadByte(m, x)
  {
    hide LoadByte, Loaded, Place, Disjoint;
    if n == 0 {
      NothingLoaded(m, phdrs, file, base);
    } else {
      LoadedElsewhere(m, phdrs, file, base, n - 1, x);
      LoadedStep(m, phdrs, file, base, n, x);
      assert phdrs[n - 1].Load() ==> Sound(phdrs[n - 1], file);
    }
  }
}
