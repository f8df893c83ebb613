# PiousOS verification model

Dafny models of the three stateful parts of PiousOS, and proofs about them.

**Boot loader memory path** (`src/bootloader/boot.c`). `Memory` is byte-addressed
physical memory with little-endian words on it. `PageTables` holds the processor's
four-level walk, for reads and for writes, with lemmas that fix the bits it looks at
(`EntryBits`, `FrameBits`, `LargeBytes`), and what a tree of page tables is; `PageMapping` is
`MapVirtualPages` as a function of memory and of the frames the firmware hands out,
`MapVirtualPages` the same in place on a class. `TableLinking` and `TablePlan` are
about the tables a call needs, `MappingProof` and `MappingTheorems` about what it
maps, `SpillExact` and `SpillLayouts` about the words it stores past its tables,
`PathEntries` about entries on its path that are no tables. `FreeAddress` has the
two enumerators of candidate addresses, `BaseSearch` the three-stage search against
a scripted firmware, `ElfLoader` the sizing and placing of segments. `KernelImage`
and `KernelBoot` put the path together: what the kernel reads at its virtual
addresses is its file.

**Text console** (`src/kernel/graphics.c`). `TextGrid` is the cell grid with its
cursor and the unbounded wrapped text it is a window on. `Framebuffer` and
`Drawing` say how a grid is drawn into pixels and how drawing a glyph and scrolling
the buffer act on the picture. `Numerals` and `Format` say what a format and its
arguments come to; `Display` is the console itself, in place on the pixel array.

**Interrupts** (`arch/kernel/x86_64`). `StackMachine` has the pushers as
instruction lists and runs with interrupts arriving between any two instructions
and anywhere in a handler; `Interrupts` proves that they leave no trace, provided no
interrupt stack in use is entered again and error codes come as the pushers expect,
`Processor` executes them in place, `InterruptTable` fills the descriptor table,
`Dispatch` goes from a vector to the frame its handler sees.

What the source leaves to others is a parameter. The firmware is a script of
arbitrary answers, memory maps and memory contents; page-table frames come from a
list; the font is any 128 x 8 byte table; a file is a byte sequence and the headers
whose reading fails are a set. In the stack machine a word is an integer, and a
handler is any finite sequence of register and flag writes, stores below its return
address, stack pointer moves below it, and interrupts.

Results that are not what one would hope for:

- `MapVirtualPages` stores past the end of a level-1 table before it recurses, and
  does so again after each recursive call. It is right exactly when each of those
  words misses the tables in place or lands on the entry of a page that is mapped
  again later (`SpillExact.SpillExact`; the condition, `MappingProof.Harmless`, can
  be told from the tables and the free frames before the call, and it is what the
  mapping theorems assume). In an empty slot of the root table, with frames handed
  out upwards, it holds exactly when the range stays in the gigabyte of its first page
  or goes at most one page past its first level-1 table: else the level-2 table of the
  next gigabyte lies behind a level-1 table (`SpillLayouts.SlotUpwardExact`). With
  frames handed out downwards it holds exactly when the range stays in its first
  level-1 table, behind which the level-2 table lies
  (`SpillLayouts.SlotDownwardExact`); mapping pages 511 and 512 then unmaps page 511
  (`MapVirtualPages.SpillCorrupts`).
- It takes every entry in use on its path for a table. Large pages elsewhere do not
  matter. As long as the words it may be led to touch no table, a new block is mapped
  to a range within one level-1 table exactly when each entry in use on the path, at
  every level, is a table: no large page, present, no bit above 51 set. Otherwise no
  translation changes, and its entries overwrite the words at which it was led to look
  for a table (`PathEntries.PathExact`, `PathEntries.MisledSame`).
- Segments are placed relative to header 0, whatever its type. They lie in the
  allocated block exactly when, counted from there modulo 2^64, they end within it
  (`ElfLoader.PlacementExact`), and are seen at their virtual addresses exactly when
  header 0 is page aligned (`KernelImage.AlignmentExact`).
- A block kept because an old kernel's magic starts it is not cleared, so bytes
  past a segment's file data keep their old values (`KernelImage.VirtualReadsFile`
  says which; `KernelBoot.KernelReads` is the zero case).
- The by-page enumerator, called with ~0, goes on at address 0xFFF
  (`FreeAddress.ByPageForward`), and the last loop of the search looks at the wrong
  variable for exhaustion: a firmware that keeps answering "not found" is asked for
  ever, for ~0 and beyond (`BaseSearch.NeverGivesUp`, `BaseSearch.AsksForNone`).
- `ScrollUp` counts the words of a frame buffer without a back porch. It moves any
  picture correctly exactly when there is none (`Drawing.ScrollExact`), and what a
  console shows exactly when the words it moves take in the last pixel of the last
  cell (`Drawing.ScrollShowsExact`).
- The most negative value of each signed conversion prints as "-0", and `%o` of an
  unsigned int from 2^31 on prints a number 2^32 too large (`Format.SignedReads`,
  `Format.UnsignedReads`, `Numerals.OctalInt`). The code's own guard for the former
  tests for 0 after negating, which never holds.
- A control protection exception (vector 21) pushes an error code that its pusher does
  not expect, and the pusher of vector 30 expects one that the processor does not push:
  these two do not bring back the interrupted context (`Interrupts.ExceptionExact`).
  Handlers are called on a 16-byte aligned stack only when there is an error code
  (`Interrupts.HandlerSeesFrame`).
- The double fault gate is made with the machine check setter, so it alone selects
  another stack than the one set up for it (`InterruptTable.WrongStackExact`).
- The processor starts an interrupt stack from its top even when it is in use. Every
  interrupted context comes back exactly when no vector arrives whose interrupt stack
  is in use (`Interrupts.NestingExact`). A breakpoint in the breakpoint handler and,
  for the reason above, a double fault in the machine check handler lose the context
  (`Dispatch.SharedStackRuns`).

## Model

| member | source | states |
|---|---|---|
| Memory.Store64Load64 | src/bootloader/boot.c:2026-2028 | a word stored anywhere reads back, whatever the bytes were |
| Memory.StoreLEOrder | src/bootloader/boot.c:2026-2028 | byte i of a stored word is its i-th lowest byte |
| PageTables.WalkLeaf | src/bootloader/boot.c:2013-2046 | the processor's walk of any 48-bit address ends in the large page it lies in, or else at the leaf entry found by prefix: its frame plus the page offset, or nothing when it is not present |
| PageTables.StoreLeaf | src/bootloader/boot.c:2049-2050 | a store in a level-1 table changes that one page's entry and no table |
| PageTables.StoreOffTables | src/bootloader/boot.c:2050-2050 | a store outside all tables changes no table and no translation |
| TableLinking.LinkedTree | src/bootloader/boot.c:2022-2046 | linking a zeroed frame at an empty entry keeps the tables a tree, adds exactly that table and changes no translation |
| TablePlan.LinkAllLinks | src/bootloader/boot.c:2022-2046 | looking up or allocating the tables of a whole range serves every page of it, takes frames for missing tables on the requested paths alone and changes no translation |
| TablePlan.LinkAllAgrees | src/bootloader/boot.c:2022-2046 | which tables a range ends up with depends on the tables and free frames only, whatever level-1 entries and other memory hold |
| MappingProof.MapContained | src/bootloader/boot.c:1999-2060 | any recursive call: the planned tables, pages outside the range and memory that is no table keep their values, and its first page is mapped, though its own stores past a table may spoil later pages |
| MappingProof.LoopHarmless | src/bootloader/boot.c:2049-2056 | the first loop from any iteration on, through in-table stores, stores past the table and recursive calls: each page that is left is mapped right and nothing else changes |
| MappingProof.HarmlessMaps | src/bootloader/boot.c:1999-2060 | a harmless call leaves the planned tables, the entry of every requested page, every other entry and all bytes off tables and past-the-table words as they should be, with large pages anywhere off the path |
| MappingTheorems.MapTranslates | src/bootloader/boot.c:1999-2060 | after mapping a range over any number of tables, byte d of the range walks to byte d of the physical block, every other address, in large pages too, walks as before, and the tables are a tree |
| MappingTheorems.MapWrites | src/bootloader/boot.c:2026-2050 | after the call the processor may write a mapped page if and only if the flags mark it present and writable and every table link on its way that was there before lets it; every other address is writable as before |
| MappingTheorems.MapAllocates | src/bootloader/boot.c:2022-2055 | over all recursive calls exactly the missing tables are allocated, each from its own frame, in the firmware's order |
| MappingTheorems.MapKeepsBytes | src/bootloader/boot.c:1999-2060 | bytes in no table, in no free frame and under no store past a table keep their value |
| MappingTheorems.MapIsPageByPage | src/bootloader/boot.c:2049-2056 | one call for a range gives every address the translation that one call per page gives |
| MappingTheorems.MapAgain | src/bootloader/boot.c:2053-2055 | mapping the same range again, as happens after each recursive call, changes no translation and takes no frame, given that even the first store past a table is harmless on all planned tables |
| PathEntries.MisledSame | src/bootloader/boot.c:2022-2050 | a call led astray by an entry in use that is no table, at any level, changes no translation when the words it is led to touch no table, and writes its entries where it was led to look for a table |
| PathEntries.PathExact | src/bootloader/boot.c:2022-2050 | a new block is mapped to a range within one level-1 table if and only if each entry in use on the path, at every level, is a table |
| SpillExact.SpillExact | src/bootloader/boot.c:2049-2055 | for a new block, a call maps exactly the range on the planned tables if and only if every word it stores past a table misses the tables then in place or hits a page that is mapped again later |
| SpillExact.MapPersists | src/bootloader/boot.c:2013-2056 | whatever state the tables are in, an entry that names a page of the block still names one after the call, so harm is never undone |
| SpillExact.MapSplits | src/bootloader/boot.c:2013-2056 | a call ends with the planned tables or with a table entry that names a page of the block |
| SpillLayouts.ConsecutiveHarmless | src/bootloader/boot.c:2049-2055 | level-1 tables that lie one after another are never harmed |
| SpillLayouts.UpwardExact | src/bootloader/boot.c:2022-2055 | with frames handed out upwards behind the first level-1 table and all other level-1 tables missing, a call is harmless if and only if no upper table is missing further on or it goes one page at most past its first table |
| SpillLayouts.SlotUpwardExact | src/bootloader/boot.c:2022-2055 | in an empty root slot with frames handed out upwards, as for the kernel's own call, it is harmless if and only if the range stays in its first gigabyte or goes one page at most past its first table |
| SpillLayouts.SlotDownwardExact | src/bootloader/boot.c:2022-2055 | in an empty root slot with frames handed out downwards it is harmless if and only if the range stays in its first level-1 table |
| MapVirtualPages.PageMapper.MapVirtualPages | src/bootloader/boot.c:1999-2060 | the method in place: its shifts and masks, loop and recursion give exactly the memory and free frames of the function the theorems are about, and it terminates |
| MapVirtualPages.MapsModulo | src/bootloader/boot.c:2013-2016 | only the 48 translated bits of the virtual address count, through all recursive calls |
| MapVirtualPages.PageMapper.DescendTo | src/bootloader/boot.c:2022-2028 | one of the three look-up-or-allocate blocks; a failed allocation leaves the null pointer in use |
| MapVirtualPages.SpillCorrupts | src/bootloader/boot.c:2049-2055 | for every layout with frames handed out downwards, mapping pages 511 and 512 on empty tables is not harmless and leaves page 511 unmapped |
| FreeAddress.ActuallyFreeAddress | src/bootloader/boot.c:763-812 | returns the start of the first large enough conventional descriptor above its input, in map order, or ~0; never goes back |
| FreeAddress.ActuallyFreeAddressByPage | src/bootloader/boot.c:814-879 | returns the first descriptor's answer in map order with 64-bit wrap-around; goes forward unless the input is in the last page |
| FreeAddress.PageInExact | src/bootloader/boot.c:850-862 | on one descriptor the end bound with the page mask admits exactly the bases whose block fits |
| FreeAddress.ByPageSuccessor | src/bootloader/boot.c:843-878 | on a sorted disjoint map the by-page answer is the least feasible base above its input, or ~0 when there is none |
| FreeAddress.ByPageSuccessorExact | src/bootloader/boot.c:850-862 | for an aligned input that holds on all such maps exactly when the block at the input does not reach 2^64 |
| FreeAddress.PagesComplete | src/bootloader/boot.c:814-879 | iterated, it visits every later feasible base once, in order, nothing else, and ends with ~0 |
| FreeAddress.PagesButComplete | src/bootloader/boot.c:437-443 | with the known bad address passed over, it visits all feasible bases but that one, in order |
| FreeAddress.BySectionSuccessor | src/bootloader/boot.c:790-811 | on a sorted map the by-section answer is the least suitable start above its input, or ~0 when there is none |
| FreeAddress.SectionsAscend | src/bootloader/boot.c:336-342 | on any map the sections gone through rise strictly and never include the bad address or ~0 |
| FreeAddress.SectionsComplete | src/bootloader/boot.c:336-342 | on a sorted map no suitable section but the bad one is passed over |
| FreeAddress.CountDrops | src/bootloader/boot.c:790-811 | on an unchanging map, in any order, each by-section step leaves strictly fewer suitable descriptors above |
| FreeAddress.ByPageForward | src/bootloader/boot.c:857-857 | the by-page answer is above its input or ~0 on every map exactly when the input is below the last page |
| BaseSearch.VerifyZeroMem | src/bootloader/boot.c:750-760 | reports whether some byte of the block is not zero |
| BaseSearch.Compare | src/bootloader/boot.c:736-748 | reports whether memory holds exactly the given bytes |
| BaseSearch.TakeSection | src/bootloader/boot.c:325-366 | stage one: holds exactly the granted block or nothing; on a fixed map tries address 0 and then the sections in order, all of them when it fails unforced, within 4 firmware calls per suitable section and 3 more |
| BaseSearch.RetakeSection | src/bootloader/boot.c:389-417 | stage two's inner loop: from nothing held to one later section held, or exhaustion, in order and within the same call budget |
| BaseSearch.SettleSection | src/bootloader/boot.c:368-423 | stage two: ends holding exactly one block that is zero or starts with the ELF magic, or with nothing and every section tried, within the call budget |
| BaseSearch.TakePage | src/bootloader/boot.c:427-462 | stage three: on a fixed sorted map tries the feasible bases after the first section in order, all of them when it fails unforced |
| BaseSearch.RetakePage | src/bootloader/boot.c:484-512 | the last inner loop computes what the script determines, keeps to the order of feasible bases until they are exhausted, and comes back holding the granted block or nothing |
| BaseSearch.NeverGivesUp | src/bootloader/boot.c:504-508 | of any number of "not found" replies, on any map, it uses up all, at least every third on a request |
| BaseSearch.AsksForNone | src/bootloader/boot.c:504-510 | on a fixed map without a base left it asks for ~0, which is not granted, and goes on from there |
| BaseSearch.RetakeExact | src/bootloader/boot.c:484-512 | that loop runs to the end of the script exactly when all answers to its requests are "not found" |
| BaseSearch.SettlePage | src/bootloader/boot.c:464-519 | stage three, verifying: succeeds with exactly one good block, on a fixed sorted map a feasible one not below the first section, after the bases before it in order or after all; fails only when the firmware refuses or fails outright |
| BaseSearch.FindAnother | src/bootloader/boot.c:325-519 | the three stages after the first try was given back: what they hold, try and leave untried in success and failure, with no stage left out |
| BaseSearch.FindBase | src/bootloader/boot.c:277-522 | the whole search against any firmware: first asks for 1 GiB and keeps that block exactly if it is granted and, cleared, is zero or an old kernel's; one block at a time, only dirty blocks given back; success holds exactly a zero or old-kernel block that is not the rejected first try; an unforced failure has tried the first address alone only if it was not granted, every section if it was, and every page too if any block was taken after the first; on a fixed map at most 4 calls per suitable section and 10 more before stage three, sections and pages in order |
| BaseSearch.OneBlockAtATime | src/bootloader/boot.c:296-522 | an unbroken ledger means that at every moment of the log at most one block was held, none when one was taken and exactly the one given back |
| ElfLoader.ImageExtent | src/bootloader/boot.c:262-275 | the folds give the greatest end and least start of the loadable segments, and the page count is the least that covers them; one page when there are none |
| ElfLoader.ReadDelivers | src/bootloader/boot.c:540-549 | a read delivers the file's bytes from the segment's offset on, all that is asked for unless the file ends |
| ElfLoader.Loader.LoadSegments | src/bootloader/boot.c:531-557 | succeeds exactly when no loadable header's read fails, and then memory is the old one with every loadable segment's file data copied to its place; otherwise it has stopped at the first header that cannot be read |
| ElfLoader.PlacementExact | src/bootloader/boot.c:535-535 | whatever header 0 is, all segments lie inside the allocated pages exactly when their end, counted from header 0 modulo 2^64, does; so when header 0 is the lowest loadable one |
| ElfLoader.LoadedSegment | src/bootloader/boot.c:531-557 | after loading, each byte of each segment is the file's, or past the file data what memory held |
| ElfLoader.LoadedElsewhere | src/bootloader/boot.c:531-557 | bytes of no segment keep their value |
| KernelImage.ExtentExact | src/bootloader/boot.c:262-275 | the pages from header 0's address cover the segments exactly when header 0 lies no higher than the least start and the greatest end no higher than the last page |
| KernelImage.BlockFreeExact | src/bootloader/boot.c:576-576 | for an image within one level-1 table the condition on the block is only that it lies apart from tables and free frames |
| KernelImage.AlignmentExact | src/bootloader/boot.c:559-576 | image byte d walks to block byte d exactly when header 0, of any type, is page aligned, and is off by its page offset otherwise |
| KernelImage.VirtualReadsFile | src/bootloader/boot.c:531-576 | every segment byte's virtual address walks to a byte holding the file's byte, or past the file data what the block held before |
| KernelImage.ImageEntries | src/bootloader/boot.c:559-576 | after loading and mapping, the page-table entry of image page i is block page i, present and writable and nothing else |
| KernelImage.ImageWrites | src/bootloader/boot.c:576-576 | every byte of the image is writable at its virtual address if and only if the links that were there before let it |
| KernelBoot.LoadKernel | src/bootloader/boot.c:262-576 | the whole path in place, for any headers: the page count is the least that covers the loadable segments; it succeeds if and only if the search ends with a block held, no FreePages call having failed, and no loadable read fails; an unforced failure to find one has tried everything; on success one usable block is held and memory is that block loaded and mapped; when it was found zero, the image is well laid out and the mapping harmless, every segment byte then reads as the file's byte or 0; on failure nothing is mapped |
| KernelBoot.KernelReads | src/bootloader/boot.c:262-576 | in a block verified zero every byte of every segment reads as the file's byte or 0 |
| TextGrid.ScreenIsWindow | src/kernel/graphics.c:112-138 | after any characters and newlines the grid is the last rows of the unbounded wrapped text and the cursor its place there |
| TextGrid.CursorBlank | src/kernel/graphics.c:112-138 | every cell from the cursor on is blank |
| Framebuffer.SquareOfDot | src/kernel/graphics.c:87-110 | the 64 squares drawn for a glyph are exactly the 64 dots of its cell: they cover it, each pixel once |
| Framebuffer.BitsAddUp | src/kernel/graphics.c:89-89 | the dots lit in a row of a glyph, column n weighing 2^n, add up to the font byte: the lowest bit is the leftmost dot |
| Framebuffer.FillSquare | src/kernel/graphics.c:91-97 | one square changes exactly its pixels; no offset reaches 2^32 and no store leaves the buffer |
| Drawing.CellRendered | src/kernel/graphics.c:87-110 | drawing one cell's pixels turns a rendered grid into the rendering of the grid with that cell set |
| Drawing.ScrollRendered | src/kernel/graphics.c:120-138 | when the words it moves take in all cells, shifting the buffer in place turns a rendered grid into the rendering of the scrolled grid, leftover rows and columns included |
| Drawing.ScrollExact | src/kernel/graphics.c:126-137 | ScrollUp moves the visible picture, whatever is on it, exactly when there is no back porch |
| Drawing.ScrollShowsExact | src/kernel/graphics.c:113-138 | on the screens a console comes to, whatever they show, the put that scrolls is drawn right if and only if ScrollUp's word count takes in the last pixel of the last cell; always without a back porch |
| Display.Console.InitializeDisplay | src/kernel/graphics.c:27-43 | scale 1 below 518400 pixels, 2 from there, 4 from 2073600 on; leaves an empty, correctly drawn black screen with the cursor at its start, with or without a back porch |
| Display.Console.ColorScreen | src/kernel/graphics.c:814-826 | colours exactly the visible pixels |
| Display.Console.DrawGlyph | src/kernel/graphics.c:87-110 | draws exactly the cursor's cell, lit dots (BitsAddUp) in the foreground, the others in the background colour, with or without a back porch |
| Display.Console.ScrollUp | src/kernel/graphics.c:120-138 | moves the words down by one text row and clears the rest of the words it covers |
| Display.Console.PrintCharacter | src/kernel/graphics.c:72-118 | appends one glyph to what is printed; says every word of the buffer after it; keeps the cursor and the pixels those of the printed text, where ScrollUp does not take in all cells until the first line has left the screen |
| Display.Console.StartNewLine | src/kernel/graphics.c:794-802 | appends a line break; says every word of the buffer after it; keeps the cursor and, likewise, the pixels those of the printed text |
| Display.Console.PrintNumber | src/kernel/graphics.c:283-307 | the digit loops print exactly the emitted digits; no product wraps |
| Display.Console.PrintSigned | src/kernel/graphics.c:217-256 | the signed conversions print exactly the sign and digits, wrapped negation included |
| Display.Console.CountArguments | src/kernel/graphics.c:142-181 | the scanning pass counts its arguments modulo 256 |
| Display.Console.PrintString | src/kernel/graphics.c:140-811 | appends exactly the output of the format to what is printed and keeps pixels and cursor those of the printed text |
| Numerals.PlacesExact | src/kernel/graphics.c:286-292 | the counting loop finds the n with base^(n-1) <= v < base^n |
| Numerals.ParseNumeral | src/kernel/graphics.c:298-306 | the digits at n places read back as the value modulo base^n |
| Numerals.RoundTrip | src/kernel/graphics.c:283-366 | in every base the emitted digits read back as the value, and only 0 starts with a zero |
| Numerals.DivisorFits | src/kernel/graphics.c:300-301 | for 64-bit values the divisor never exceeds the value, nor 8^21, 10^19 or 16^15, and there are at most 22 places |
| Numerals.OctalInt | src/kernel/graphics.c:677-702 | plain `%o` reads back exactly below 2^31, and is 2^32 too large from there on |
| Format.UnsignedReads | src/kernel/graphics.c:677-786 | %u, %o and %x/%X read back in bases 10, 8 and 16 as the argument modulo 2^32, 2^64 (l) or 2^16 (h, %hs included), exactly unless it is a plain %o of 2^31 or more; %x prints no capital and %X no small letter |
| Format.SignedReads | src/kernel/graphics.c:534-572 | every signed conversion reads back in base 10 as the argument in 32, 64 or 16 bits two's complement, exactly unless that is the most negative value, which prints "-0" |
| Format.CharacterText | src/kernel/graphics.c:206-208 | %c prints the character its argument is modulo 256 |
| Format.NeverMoreThanScanned | src/kernel/graphics.c:145-183 | the printing pass takes no more arguments than the scanning pass counts |
| Format.OutputAppend | src/kernel/graphics.c:199-808 | the output of f + g with both argument lists is the output of f followed by that of g |
| Interrupts.Saved | arch/kernel/x86_64/ISR_asm.S:49-67 | SAVE_ISR_REGISTERS lays the fifteen registers out in frame order and touches no word above |
| Interrupts.Restored | arch/kernel/x86_64/ISR_asm.S:69-85 | RESTORE_ISR_REGISTERS takes fifteen words back into the same registers |
| Interrupts.QuietTransparent | arch/kernel/x86_64/ISR_asm.S:103-177 | an uninterrupted pusher of either kind restores every register, leaves the stack pointer at the words iretq takes and writes only between its stack's bottom and where it started |
| Interrupts.Simulates | arch/kernel/x86_64/ISR_asm.S:103-177 | code and handler with interrupts arriving anywhere, on their gates' stacks, end as without them, up to dead stack words |
| Interrupts.Transparent | arch/kernel/x86_64/ISR_asm.S:103-177 | for interrupts nested to any depth, at any instruction of pushers and handlers, each on its gate's stack, the interrupted registers, rsp, rip, rflags, segments and live memory are restored at iretq, provided events have error codes as their pushers expect, no vector's interrupt stack is in use when it arrives and none overflows |
| Interrupts.NestingExact | arch/kernel/x86_64/ISR.c:105-108 | in a run without overflow whose events agree with their pushers, this and every nested context comes back if and only if no vector arrives whose interrupt stack is in use |
| Interrupts.SameStackLost | arch/kernel/x86_64/ISR.c:105-108 | a handler interrupted on its own interrupt stack loses its context: iretq takes the handler's stack pointer for the interrupted one |
| Interrupts.AgreementExact | arch/kernel/x86_64/ISR_asm.S:103-177 | on a free stack without overflow, an uninterrupted pusher brings its context back if and only if the event has an error code exactly when the pusher's macro expects one |
| Interrupts.ExceptionExact | arch/kernel/x86_64/ISR_asm.S:190-235 | with error codes as in the processor's own table that is every vector but 21 and 30 |
| Interrupts.HandlerSeesFrame | arch/kernel/x86_64/ISR.h:69-133 | at its call the handler's argument points at a frame showing the interrupted registers, the vector and the error code, whatever interrupted the pusher on free stacks; rbp leads to the interrupted rbp, rax is 0, the direction flag is clear, and the stack is 16-byte aligned only with an error code |
| Interrupts.DirectionCleared | arch/kernel/x86_64/ISR_asm.S:66-66 | clearing the direction flag clears bit 10 and changes no other bit |
| Processor.Processor.Service | arch/kernel/x86_64/ISR_asm.S:103-177 | entry on the gate's stack, pusher, handler and iretq executed in place, with nested interrupts; the context is unharmed when no stack in use is entered again and none overflows |
| Processor.Processor.RunCode | arch/kernel/x86_64/ISR_asm.S:103-177 | executing instructions one by one, interrupts between them, ends in the state the run function gives |
| InterruptTable.InterruptDescriptors.SetGate | arch/kernel/x86_64/ISR.c:409-418 | the truncated pieces of any 64-bit address decode back to it, and no other gate changes |
| InterruptTable.InterruptDescriptors.InitializeISR | arch/kernel/x86_64/ISR.c:114-393 | for pushers at any addresses, every one of the 256 gates decodes to its own pusher with the setter's stack |
| InterruptTable.OrderComplete | arch/kernel/x86_64/ISR.c:114-393 | the order of the calls reaches every vector exactly once |
| InterruptTable.WrongStackExact | arch/kernel/x86_64/ISR.c:105-137 | in an initialized table a gate selects the stack set up for its vector exactly when the vector is not 8, the double fault, which has the machine check's |
| Dispatch.VectorServed | arch/kernel/x86_64/ISR.c:114-393 | from gate v the processor reaches, on the stack the gate selects, the pusher of v, whose handler sees v, the error code and the interrupted registers, and the context comes back, when no stack in use is entered again and none overflows |
| Dispatch.SharedStackLost | arch/kernel/x86_64/ISR.c:105-137 | through an initialized table, a double fault in the machine check handler or the other way round, or a breakpoint or double fault in its own handler, loses the interrupted context, for all contexts, stacks and calm handlers |
| Dispatch.SharedStackRuns | arch/kernel/x86_64/ISR.c:105-137 | the shortest such runs fit from any context, are not free, and do not bring it back |

## Left out

- MappingTheorems.MapTranslates: page counts and addresses that leave the 48-bit or 52-bit address space, and flags above bit 11, are excluded.
- SpillExact.SpillExact: no planned table lies at address 0, the flags mark pages present, and no entry outside the range already names a page of the block; otherwise a stray word may happen to be right.
- PathEntries.PathExact: the words the call is led to are clear of all tables; else it may change any translation. Ranges over several level-1 tables are not covered.
- MappingProof.HarmlessMaps: no frame serves two tables of the tree, and links on the path are 0 or tables; PathExact is about others. Requires enough frames for the missing tables; one failed allocation would use the frame at address 0, a second one the same frame again.
- FreeAddress.ByPageSuccessor: maps with empty descriptors or descriptors ending at 2^64 are excluded.
- BaseSearch.FindBase: memory-map buffers, which the enumerators do not free when they find nothing, are not blocks of the ledger. Statuses are success, not found, or another error; warnings are not answers of these services. No termination is claimed for stage three, which has none.
- BaseSearch.Firmware.AllocatePages: never grants an unaligned base or one outside the 52-bit physical space.
- KernelBoot.LoadKernel: an image without any program header is excluded. The ELF identification, class and machine checks, the header table's own buffer and the error messages are left out; a block is not given back when a segment read fails, as in the code.
- Display.Console.PrintString: formats with `%e`, `%f` or `%g` (floating-point rounding), a dangling `%`, `%l` or `%h`, and characters outside the 128-glyph font are excluded; the string ends before its terminator. The printed history is a ghost of the console.
- Display.Console.PrintCharacter: when it scrolls, requires that one text row of buffer words is no more than the words ScrollUp moves, or that would count down past 0.
- Interrupts.Transparent: words below the interrupted stack pointer (a red zone) are not preserved. Runs that overflow a stack are excluded by `StackMachine.Fits`; the xsave area is not modelled. They also ask that each event has an error code exactly when its pusher expects one; AgreementExact says what happens otherwise.
- TLB invalidation, the control registers, the GDT and task register, and the retries around leaving boot services: hardware and firmware steps with no state in the model.
- Graphics output protocol set-up and its menus, `memory.c`, `system.c`, drivers and the aarch64 stubs: they would add only easy members.
