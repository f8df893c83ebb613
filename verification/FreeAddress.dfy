/** The two enumerators of candidate load addresses, over one firmware memory
    map.  All address arithmetic is modulo 2^64, as in the code. */
module FreeAddress {
  import opened Words
  import opened Options

  const NONE: nat := 0xFFFF_FFFF_FFFF_FFFF  // the code's ~0ULL

  datatype Descriptor = Descriptor(conventional: bool, start: Address, pages: nat)

  /** What GetMemoryMap yields; None when one of the calls around it fails. */
  type MemoryMap = Option<seq<Descriptor>>

  predicate Suits(d: Descriptor, pages: nat, last: Address) {
    d.conventional && d.pages >= pages && d.start > last
  }

  function FirstSuiting(ds: seq<Descriptor>, pages: nat, last: Address): Address {
    if ds == [] then NONE
    else if Suits(ds[0], pages, last) then ds[0].start
    else FirstSuiting(ds[1..], pages, last)
  }

  function PhysicalEnd(d: Descriptor): Address {
    (d.start + 4096 * d.pages - 0xFFF) % U64
  }

  function PageIn(d: Descriptor, pages: nat, last: Address): Option<Address> {
    if d.conventional && d.pages >= pages then
      if last >= d.start && (last + 4096 * pages) % U64 < PhysicalEnd(d) then Some((last + 4096) % U64)
      else if d.start > last then Some(d.start)
      else None
    else None
  }

  function FirstPage(ds: seq<Descriptor>, pages: nat, last: Address): Address {
    if ds == [] then NONE
    else
      match PageIn(ds[0], pages, last)
      case Some(a) => a
      case None => FirstPage(ds[1..], pages, last)
  }

  method ActuallyFreeAddress(mm: MemoryMap, pages: nat, last: Address) returns (found: Address)
    ensures found == if mm.None? then NONE else FirstSuiting(mm.value, pages, last)
    ensures found == U64 - 1 || found > last
  {
    if mm.None? {
      return NONE;
    }
    var piece := 0;
    while piece < |mm.value|
      invariant 0 <= piece <= |mm.value|
      invariant FirstSuiting(mm.value, pages, last) == FirstSuiting(mm.value[piece..], pages, last)
    {
      if mm.value[piece].conventional && mm.value[piece].pages >= pages && mm.value[piece].start > last {
        break;
      }
      piece := piece + 1;
    }
    if piece >= |mm.value| {
      return NONE;
    }
    found := mm.value[piece].start;
  }

  method ActuallyFreeAddressByPage(mm: MemoryMap, pages: nat, last: Address) returns (found: Address)
    ensures found == if mm.None? then NONE else FirstPage(mm.value, pages, last)
    ensures mm.None? ==> found == U64 - 1
    ensures last < U64 - 4096 ==> found == U64 - 1 || found > last
  {
    if mm.None? {
      return NONE;
    }
    var piece := 0;
    var discovered: Address := NONE;
    while piece < |mm.value|
      invariant 0 <= piece <= |mm.value|
      invariant FirstPage(mm.value, pages, last) == FirstPage(mm.value[piece..], pages, last)
    {
      var d := mm.value[piece];
      if d.conventional && d.pages >= pages {
        var physicalEnd := (d.start + 4096 * d.pages - 0xFFF) % U64;
        if last >= d.start && (last + 4096 * pages) % U64 < physicalEnd {
          discovered := (last + 4096) % U64;
          break;
        } else if d.start > last {
          discovered := d.start;
          break;
        }
      }
      piece := piece + 1;
    }
    if piece >= |mm.value| {
      return NONE;
    }
    found := discovered;
  }

  // ------------------------------------------------------ exact enumeration

  function End(d: Descriptor): nat { d.start + 4096 * d.pages }

  /** Sorted, disjoint, page aligned, none empty, none reaching 2^64. */
  ghost predicate WellFormed(ds: seq<Descriptor>) {
    && (forall i | 0 <= i < |ds| :: ds[i].start % 4096 == 0 && 0 < ds[i].pages && End(ds[i]) < U64)
    && (forall i, j | 0 <= i < j < |ds| :: End(ds[i]) <= ds[j].start)
  }

  /** `pages` pages from `a` lie in one conventional descriptor. */
  predicate Fits(d: Descriptor, pages: nat, a: nat) {
    d.conventional && a % 4096 == 0 && d.start <= a && a + 4096 * pages <= End(d)
  }

  ghost predicate Feasible(ds: seq<Descriptor>, pages: nat, a: nat) {
    exists i :: 0 <= i < |ds| && Fits(ds[i], pages, a)
  }

  /** `a` is the least feasible base above `last`, or NONE if there is none. */
  ghost predicate Successor(ds: seq<Descriptor>, pages: nat, last: nat, a: nat) {
    if a == NONE then forall b: nat | Feasible(ds, pages, b) :: b <= last
    else a > last && Feasible(ds, pages, a) && forall b: nat | Feasible(ds, pages, b) && b > last :: a <= b
  }

  /** On one descriptor the code's bound is exact. */
  lemma PageInExact(d: Descriptor, pages: nat, last: Address)
    requires d.start % 4096 == 0 && 0 < d.pages && End(d) < U64
    requires last % 4096 == 0 && last + 4096 * pages < U64
    ensures PageIn(d, pages, last).None? ==> forall b: nat | Fits(d, pages, b) :: b <= last
    ensures PageIn(d, pages, last).Some? ==>
      var a := PageIn(d, pages, last).value;
      a > last && Fits(d, pages, a) && forall b: nat | Fits(d, pages, b) && b > last :: a <= b
  {
    assert PhysicalEnd(d) == End(d) - 0xFFF;
    forall b: nat | Fits(d, pages, b) && b > last
      ensures b >= last + 4096
    {
      NextAligned(last, b);
    }
    if last + 4096 * pages < End(d) {
      NextAligned(last + 4096 * pages, End(d));
    }
  }

  lemma NextAligned(a: nat, b: nat)
    requires a % 4096 == 0 && b % 4096 == 0 && a < b
    ensures a + 4096 <= b
  {}

  /** ActuallyFreeAddressByPage steps to the very next feasible base. */
  lemma {:induction false} ByPageSuccessor(ds: seq<Descriptor>, pages: nat, last: Address)
    requires WellFormed(ds) && last % 4096 == 0 && last + 4096 * pages < U64
    ensures Successor(ds, pages, last, FirstPage(ds, pages, last))
  {
    if ds != [] {
      hide PageIn, Fits;
      var rest := ds[1..];
      assert WellFormed(rest);
      PageInExact(ds[0], pages, last);
      ByPageSuccessor(rest, pages, last);
      FeasibleCons(ds, pages);
      FitsInside(ds, pages);
      if PageIn(ds[0], pages, last).Some? {
        assert FirstPage(ds, pages, last) != NONE by { FitsNotNone(ds[0], pages, FirstPage(ds, pages, last)); }
      }
    }
  }

  /** For an aligned address that is so on every well-formed map exactly when the
      block behind it does not reach 2^64; else the sum in the bound wraps around
      and the search returns a base where the block does not fit. */
  lemma ByPageSuccessorExact(pages: nat, last: Address)
    requires 0 < pages && 4096 * pages < U64 && last % 4096 == 0
    ensures (forall ds: seq<Descriptor> | WellFormed(ds) :: Successor(ds, pages, last, FirstPage(ds, pages, last)))
       <==> last + 4096 * pages < U64
  {
    if last + 4096 * pages < U64 {
      forall ds: seq<Descriptor> | WellFormed(ds)
        ensures Successor(ds, pages, last, FirstPage(ds, pages, last))
      {
        ByPageSuccessor(ds, pages, last);
      }
    } else {
      var d := Descriptor(true, 0, pages);
      NextAligned(last, U64);
      assert PhysicalEnd(d) == 4096 * pages - 0xFFF;
      assert (last + 4096 * pages) % U64 == last + 4096 * pages - U64;
      assert FirstPage([d], pages, last) == (last + 4096) % U64;
      assert WellFormed([d]);
      OnlyBase(d, pages);
      assert !Successor([d], pages, last, FirstPage([d], pages, last));
    }
  }

  /** In a descriptor of `pages` pages only its start fits. */
  lemma OnlyBase(d: Descriptor, pages: nat)
    requires d == Descriptor(true, 0, pages)
    ensures forall b: nat | Feasible([d], pages, b) :: b == 0
  {}

  lemma FitsNotNone(d: Descriptor, pages: nat, a: nat)
    requires Fits(d, pages, a)
    ensures a != NONE
  {}

  lemma FeasibleCons(ds: seq<Descriptor>, pages: nat)
    requires ds != []
    ensures forall a: nat :: Feasible(ds, pages, a) <==> Fits(ds[0], pages, a) || Feasible(ds[1..], pages, a)
  {
    hide Fits;
    forall a: nat
      ensures Feasible(ds, pages, a) <==> Fits(ds[0], pages, a) || Feasible(ds[1..], pages, a)
    {
      if i :| 0 <= i < |ds| && Fits(ds[i], pages, a) {
        assert i > 0 ==> ds[i] == ds[1..][i - 1];
      }
      if i :| 0 <= i < |ds[1..]| && Fits(ds[1..][i], pages, a) {
        assert ds[1..][i] == ds[i + 1];
      }
    }
  }

  /** What fits later in a sorted map lies above what fits in its first entry. */
  lemma FitsInside(ds: seq<Descriptor>, pages: nat)
    requires WellFormed(ds) && ds != []
    ensures forall a: nat, b: nat | Fits(ds[0], pages, a) && Feasible(ds[1..], pages, b) :: a <= b
  {
    forall a: nat, b: nat | Fits(ds[0], pages, a) && Feasible(ds[1..], pages, b)
      ensures a <= b
    {
      var i :| 0 <= i < |ds[1..]| && Fits(ds[1..][i], pages, b);
      assert ds[1..][i] == ds[i + 1];
    }
  }

  /** ActuallyFreeAddress steps to the next descriptor that is large enough. */
  lemma {:induction false} BySectionSuccessor(ds: seq<Descriptor>, pages: nat, last: Address)
    requires forall i, j | 0 <= i < j < |ds| :: ds[i].start <= ds[j].start
    requires forall i | 0 <= i < |ds| :: ds[i].start != NONE
    ensures var a := FirstSuiting(ds, pages, last);
            if a == NONE then forall i | 0 <= i < |ds| :: !Suits(ds[i], pages, last)
            else a > last && (exists i :: 0 <= i < |ds| && Suits(ds[i], pages, last) && ds[i].start == a)
                 && forall i | 0 <= i < |ds| && Suits(ds[i], pages, last) :: a <= ds[i].start
  {
    if ds != [] && !Suits(ds[0], pages, last) {
      BySectionSuccessor(ds[1..], pages, last);
      forall i | 0 <= i < |ds| && Suits(ds[i], pages, last)
        ensures FirstSuiting(ds, pages, last) != NONE && FirstSuiting(ds, pages, last) <= ds[i].start
      {
        assert ds[i] == ds[1..][i - 1];
      }
      if FirstSuiting(ds, pages, last) != NONE {
        var i :| 0 <= i < |ds[1..]| && Suits(ds[1..][i], pages, last) && ds[1..][i].start == FirstSuiting(ds, pages, last);
        assert ds[i + 1] == ds[1..][i];
      }
    }
  }

  // ------------------------------------------------------- whole enumerations

  /** All addresses the by-page search visits after `last`. */
  function Pages(ds: seq<Descriptor>, pages: nat, last: Address): seq<Address>
    decreases U64 - last
  {
    var a := FirstPage(ds, pages, last);
    if a == NONE || a <= last then [] else [a] + Pages(ds, pages, a)
  }

  ghost predicate Ascending(s: seq<nat>) {
    forall i, j | 0 <= i < j < |s| :: s[i] < s[j]
  }

  /** Iterated, the by-page search visits every later feasible base, once, in
      order, and nothing else, and then stops at NONE. */
  lemma {:induction false} PagesComplete(ds: seq<Descriptor>, pages: nat, last: Address)
    requires WellFormed(ds) && last % 4096 == 0 && last + 4096 * pages < U64
    ensures Ascending(Pages(ds, pages, last))
    ensures forall a: nat :: a in Pages(ds, pages, last) <==> Feasible(ds, pages, a) && a > last
    ensures FirstPage(ds, pages, LastOf(last, Pages(ds, pages, last))) == NONE
    decreases U64 - last
  {
    hide Feasible, FirstPage, WellFormed, Ascending;
    var a := FirstPage(ds, pages, last);
    ByPageSuccessor(ds, pages, last);
    if a != NONE {
      FeasibleRoom(ds, pages, a);
      PagesComplete(ds, pages, a);
      AscendingCons(a, Pages(ds, pages, a));
      forall b: nat
        ensures b in Pages(ds, pages, last) <==> Feasible(ds, pages, b) && b > last
      {
        assert b in [a] + Pages(ds, pages, a) <==> b == a || b in Pages(ds, pages, a);
      }
    } else {
      assert Ascending([]) by { AscendingEmpty(); }
    }
  }

  function LastOf(last: Address, visited: seq<Address>): Address {
    if visited == [] then last else visited[|visited| - 1]
  }

  lemma AscendingEmpty()
    ensures Ascending([])
  {}

  lemma AscendingCons(a: nat, s: seq<nat>)
    requires Ascending(s) && forall b | b in s :: a < b
    ensures Ascending([a] + s)
  {
    forall i, j | 0 <= i < j < |[a] + s|
      ensures ([a] + s)[i] < ([a] + s)[j]
    {
      assert ([a] + s)[j] == s[j - 1] && s[j - 1] in s;
      assert i > 0 ==> ([a] + s)[i] == s[i - 1];
    }
  }

  lemma FeasibleRoom(ds: seq<Descriptor>, pages: nat, a: nat)
    requires WellFormed(ds) && Feasible(ds, pages, a)
    ensures a % 4096 == 0 && a + 4096 * pages < U64
  {}

  lemma {:induction false} SuitingRoom(ds: seq<Descriptor>, pages: nat, last: Address)
    requires WellFormed(ds) && FirstSuiting(ds, pages, last) != NONE
    ensures Feasible(ds, pages, FirstSuiting(ds, pages, last))
  {
    if Suits(ds[0], pages, last) {
      assert Fits(ds[0], pages, ds[0].start);
    } else {
      assert WellFormed(ds[1..]);
      SuitingRoom(ds[1..], pages, last);
      FeasibleCons(ds, pages);
    }
  }

  /** Descriptors the by-section search can still return. */
  function CountAbove(ds: seq<Descriptor>, pages: nat, last: Address): nat {
    if ds == [] then 0
    else (if Suits(ds[0], pages, last) then 1 else 0) + CountAbove(ds[1..], pages, last)
  }

  lemma {:induction false} CountMonotone(ds: seq<Descriptor>, pages: nat, last: Address, later: Address)
    requires last <= later
    ensures CountAbove(ds, pages, later) <= CountAbove(ds, pages, last)
  {
    if ds != [] {
      CountMonotone(ds[1..], pages, last, later);
    }
  }

  /** On a map that does not change, in whatever order, each step of the
      by-section search leaves fewer descriptors: it reaches NONE. */
  lemma {:induction false} CountDrops(ds: seq<Descriptor>, pages: nat, last: Address)
    requires FirstSuiting(ds, pages, last) != NONE
    ensures FirstSuiting(ds, pages, last) > last
    ensures CountAbove(ds, pages, FirstSuiting(ds, pages, last)) < CountAbove(ds, pages, last)
  {
    var a := FirstSuiting(ds, pages, last);
    if Suits(ds[0], pages, last) {
      CountMonotone(ds[1..], pages, last, a);
    } else {
      CountDrops(ds[1..], pages, last);
    }
  }

  /** The addresses the by-section search goes through after `from`, passing over
      the known bad one. */
  function Sections(ds: seq<Descriptor>, pages: nat, from: Address, bad: Address): seq<Address>
    decreases CountAbove(ds, pages, from)
  {
    var a := FirstSuiting(ds, pages, from);
    if a == NONE then []
    else
      CountDrops(ds, pages, from);
      if a == bad then Sections(ds, pages, a, bad) else [a] + Sections(ds, pages, a, bad)
  }

  /** The addresses the by-page search goes through after `from`, passing over
      the known bad one, before it first answers NONE or wraps around. */
  function PagesBut(ds: seq<Descriptor>, pages: nat, from: Address, bad: Address): seq<Address>
    decreases U64 - from
  {
    var a := FirstPage(ds, pages, from);
    if a == NONE || a <= from then []
    else if a == bad then PagesBut(ds, pages, a, bad)
    else [a] + PagesBut(ds, pages, a, bad)
  }

  /** Never the bad address, always upwards. */
  lemma {:induction false} SectionsAscend(ds: seq<Descriptor>, pages: nat, from: Address, bad: Address)
    ensures forall a | a in Sections(ds, pages, from, bad) :: from < a && a != bad && a != NONE
    ensures Ascending(Sections(ds, pages, from, bad))
    decreases CountAbove(ds, pages, from)
  {
    var a := FirstSuiting(ds, pages, from);
    if a == NONE {
      AscendingEmpty();
    } else {
      hide Ascending;
      CountDrops(ds, pages, from);
      SectionsAscend(ds, pages, a, bad);
      if a != bad {
        AscendingCons(a, Sections(ds, pages, a, bad));
      }
    }
  }

  /** On a sorted map no suitable descriptor is passed over but the bad one. */
  lemma {:induction false} SectionsComplete(ds: seq<Descriptor>, pages: nat, from: Address, bad: Address)
    requires forall i, j | 0 <= i < j < |ds| :: ds[i].start <= ds[j].start
    requires forall i | 0 <= i < |ds| :: ds[i].start != NONE
    ensures forall i | 0 <= i < |ds| && Suits(ds[i], pages, from) && ds[i].start != bad ::
      ds[i].start in Sections(ds, pages, from, bad)
    decreases CountAbove(ds, pages, from)
  {
    var a := FirstSuiting(ds, pages, from);
    BySectionSuccessor(ds, pages, from);
    if a != NONE {
      CountDrops(ds, pages, from);
      SectionsComplete(ds, pages, a, bad);
    }
  }

  /** The by-page search goes through all feasible bases above `from` but the bad
      one, in order. */
  lemma {:induction false} PagesButComplete(ds: seq<Descriptor>, pages: nat, from: Address, bad: Address)
    requires WellFormed(ds) && from % 4096 == 0 && from + 4096 * pages < U64
    ensures Ascending(PagesBut(ds, pages, from, bad))
    ensures forall a: nat :: a in PagesBut(ds, pages, from, bad) <==> Feasible(ds, pages, a) && a > from && a != bad
    decreases U64 - from
  {
    hide Feasible, FirstPage, WellFormed, Ascending;
    var a := FirstPage(ds, pages, from);
    ByPageSuccessor(ds, pages, from);
    if a == NONE {
      AscendingEmpty();
    } else {
      FeasibleRoom(ds, pages, a);
      PagesButComplete(ds, pages, a, bad);
      if a != bad {
        AscendingCons(a, PagesBut(ds, pages, a, bad));
      }
      forall b: nat
        ensures b in PagesBut(ds, pages, from, bad) <==> Feasible(ds, pages, b) && b > from && b != bad
      {
        assert b in [a] + PagesBut(ds, pages, a, bad) <==> b == a || b in PagesBut(ds, pages, a, bad);
      }
    }
  }

  // --------------------------------------------------------- near the top

  /** The by-page search moves forward, whatever the map, exactly when its input
      is not within a page of 2^64: there `last + 4096` wraps around, so from NONE
      the search starts over at address 0xFFF. */
  lemma ByPageForward(pages: nat, last: Address)
    requires 1 <= pages && 4096 * (pages + 1) < U64
    ensures (forall ds: seq<Descriptor> :: FirstPage(ds, pages, last) == NONE || FirstPage(ds, pages, last) > last)
       <==> last < U64 - 4096
  {
    if last < U64 - 4096 {
      forall ds: seq<Descriptor>
        ensures FirstPage(ds, pages, last) == NONE || FirstPage(ds, pages, last) > last
      {
        ForwardOn(ds, pages, last);
      }
    } else {
      var d := Descriptor(true, 0, pages + 1);
      assert PhysicalEnd(d) == 4096 * pages + 1;
      assert (last + 4096 * pages) % U64 == last + 4096 * pages - U64;
      assert FirstPage([d], pages, last) == last + 4096 - U64;
    }
  }

  lemma {:induction false} ForwardOn(ds: seq<Descriptor>, pages: nat, last: Address)
    requires last < U64 - 4096
    ensures FirstPage(ds, pages, last) == NONE || FirstPage(ds, pages, last) > last
  {
    if ds != [] {
      ForwardOn(ds[1..], pages, last);
    }
  }
}
