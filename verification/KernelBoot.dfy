/** The ELF path of BootKernel: size the image, find memory that is really free,
    read the segments into it and map them. */
module KernelBoot {
  import opened Words
  import opened Memory
  import opened Options
  import opened PageTables
  import opened PageMapping
  import opened MapVirtualPages
  import opened ElfLoader
  import opened KernelImage
  import opened FreeAddress
  import opened BaseSearch

  /** What the walk from each segment byte's virtual address finds: the file's byte,
      or 0 past the file's data. */
  ghost predicate ReadsFile(mem: Mem, cr3: nat, phdrs: seq<Phdr>, file: seq<Byte>) {
    forall k: nat, o: nat | k < |phdrs| && phdrs[k].Load() && o < phdrs[k].memsz :: ReadsByte(mem, cr3, phdrs[k], file, o)
  }

  ghost predicate ReadsByte(mem: Mem, cr3: nat, ph: Phdr, file: seq<Byte>, o: nat) {
    var target := Walk(mem, cr3, 4, (ph.vaddr + o) % 0x1_0000_0000_0000);
    && target.Some?
    && (o < ph.filesz ==> ph.offset + o < |file|)
    && LoadByte(mem, target.value) == if o < ph.filesz then file[ph.offset + o] else 0
  }

  /** `pages` is what the sizing loop makes of the headers: the least count that covers
      the loadable segments from the least start `low` to the greatest end `top`. */
  ghost predicate Sized(phdrs: seq<Phdr>, low: Word, top: Word, pages: nat) {
    && IsUpper(phdrs, |phdrs|, top) && IsLower(phdrs, |phdrs|, low)
    && (low <= top ==> forall n: nat :: top <= low + 4096 * n <==> pages <= n)
    && ((forall i | 0 <= i < |phdrs| :: !phdrs[i].Load()) ==> pages == 1)
  }

  /** It succeeds exactly when the search is left with a block, no FreePages call having
      failed, and no loadable segment's read fails.  Then the firmware holds one block
      of the image's size, and memory is what loading and mapping make of it; in a
      block found zero the kernel sees its file at its virtual addresses, given that
      the image is laid out as the loader expects, header 0 is page aligned, and
      tables, free frames and words past tables are clear of the block.  A search that
      the firmware did not force to fail has tried everything. */
  method LoadKernel(fw: Firmware, mapper: PageMapper, phdrs: seq<Phdr>, file: seq<Byte>, broken: set<nat>,
                    ghost ds: seq<Descriptor>)
    returns (base: Option<Word>, pages: nat, ghost low: Word, ghost top: Word)
    requires fw.log == [] && fw.tried == [] && !fw.refused && !fw.cut && 0 < |phdrs|
    modifies fw, mapper
    ensures Sized(phdrs, low, top, pages)
    ensures LedgerOf(fw.log) != Broken && GivesBackDirty(fw.log)
    ensures base.Some? <==>
      LedgerOf(fw.log).Holds? && !fw.refused && forall i: nat | i < |phdrs| && phdrs[i].Load() :: i !in broken
    ensures LedgerOf(fw.log) == Nothing && !fw.refused && !fw.cut && Charted(old(fw.script), ds, pages)
      ==> Exhausted(fw.log, fw.tried, ds, pages)
    ensures base.None? ==> mapper.State() == old(mapper.State())
    ensures base.Some? ==>
      && LedgerOf(fw.log) == Holds(Block(base.value, pages)) && Usable(fw.mem, base.value, pages)
      && Mappable(base.value, pages, FLAGS)
      && mapper.State() == LoadAndMap(Machine(fw.mem, old(mapper.pool)), mapper.cr3, phdrs, file, base.value, pages)
    ensures base.Some? && phdrs[0].vaddr % 4096 == 0 && AllZero(fw.mem, base.value, 4096 * pages)
            && Bootable(Machine(fw.mem, old(mapper.pool)), mapper.cr3, phdrs, file, base.value, pages)
      ==> ReadsFile(mapper.mem, mapper.cr3, phdrs, file)
  {
    hide GivesBackDirty, LedgerOf, Usable, Loaded, MapPages, Bootable, ReadsFile, AllZero, IsUpper, IsLower, Exhausted, Charted;
    var virtSize, virtMin;
    virtSize, virtMin, pages := ImageExtent(phdrs);
    low, top := virtMin, virtSize;
    var found, thorough := FindBase(fw, pages, ds);
    base := None;
    if found.Some? {
      var loader := new Loader(fw.mem);
      var ok := loader.LoadSegments(phdrs, file, found.value, broken);
      if ok {
        mapper.mem := loader.mem;
        mapper.MapVirtualPages(found.value, phdrs[0].vaddr, pages, FLAGS);
        base := Some(found.value);
        if phdrs[0].vaddr % 4096 == 0 && AllZero(fw.mem, found.value, 4096 * pages)
           && Bootable(Machine(fw.mem, old(mapper.pool)), mapper.cr3, phdrs, file, found.value, pages) {
          KernelReads(fw.mem, old(mapper.pool), mapper.cr3, phdrs, file, found.value, pages);
        }
      }
    }
  }

  /** The kernel sees its file in a block found zero. */
  lemma KernelReads(mem: Mem, pool: seq<Frame>, cr3: nat, phdrs: seq<Phdr>, file: seq<Byte>, base: Word, pages: nat)
    requires Bootable(Machine(mem, pool), cr3, phdrs, file, base, pages)
    requires phdrs[0].vaddr % 4096 == 0 && AllZero(mem, base, 4096 * pages)
    ensures ReadsFile(LoadAndMap(Machine(mem, pool), cr3, phdrs, file, base, pages).mem, cr3, phdrs, file)
  {
    hide Stocked, BlockFree, Walk, LoadAndMap, LoadByte;
    forall k: nat, o: nat | k < |phdrs| && phdrs[k].Load() && o < phdrs[k].memsz
      ensures ReadsByte(LoadAndMap(Machine(mem, pool), cr3, phdrs, file, base, pages).mem, cr3, phdrs[k], file, o)
    {
      VirtualReadsFile(Machine(mem, pool), cr3, phdrs, file, base, pages, k, o);
    }
  }
}
