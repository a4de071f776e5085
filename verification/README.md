# The layout of compiled Android code

A Dafny model of the linking half of the ahead-of-time compiler `dex2oat`: the code that decides
where classes, objects, methods and tables go and then writes them there. Four writers work
together. Each computes a layout in one pass and has to reproduce it in a later one, and each
relies on addresses that another one will only realise afterwards. The project proves that these
agreements hold for every input, or gives the exact condition under which they do.

* **Pruning** (`Prune`): which classes go into an app image. A memoised depth-first search with a
  cut-off at cycles, against the definition by paths.
* **Image** (`BinSlot`, `ImageBins`, `ImageOffsets`, `ImageDemand`, `ImageOrders`, `ImageWalk`,
  `ImageCopy`, `ImageTiling`): the bins of the image writer, the room a heap needs in them, the slots packed into
  lock words, the offsets made from them, the copy of the heap with its references and pointers
  replaced, and the address space shared by images and oat files.
* **Oat file** (`OatTypes`, `OatVisit`, `OatLayout`, `OatWrite`, `OatMaps`, `OatPatches`, `OatFile`,
  `OatVisitors`, `ClassRecords`, `OatWriter`, `PatchLocations`): two sweeps over all methods, a layout
  pass and a write pass that finds "first visits" again from offsets alone, vmap tables, patches,
  class records as the runtime reads them, the whole file from the class offsets to the last byte of
  code, and the encoded list of patch locations.
* **ELF** (`ElfSections`, `ElfLoads`, `ElfDynamic`, `ElfSymbols`, `ElfWriterQuick`): the section
  cursors, the segments the loader sees, the addresses predicted before the sections exist, the
  dynamic symbols, and the `.bss` the oat writer counts on. Chapters 4 and 5 of the System V gABI.
* **Source map** (`SrcMap`): a compressed map that has to answer like the plain one.
* `Align` and `Words` hold rounding and 32-bit words.

State that the program changes in place is a class with `modifies` clauses; its methods are proved
against functions on values, and the theorems are about those functions and about whole runs of
them (a run is a sequence of states, or a sequence of steps).

`dafny verify dfyconfig.toml` checks everything.

## What does not hold, and when it does

Some agreements the program relies on fail for some inputs. Each has an example and an exact
condition on the input. Where an order of objects is free, it is any order in which slots may be
assigned; a walk follows references and so makes some of these orders.

| agreement | holds if and only if | example |
|---|---|---|
| The write pass writes code exactly at its first visit | no empty Thumb2 code is visited again before something else was placed (`OatWrite.WritesExactlyFirstVisits`); it is not if all Thumb2 methods have code (`OatWrite.NoBareRepeat`), and the one producer of methods without code makes them for Arm instead of Thumb2, to avoid the delta of one (art-extension/compiler/dex/dex_to_dex_compiler.cc:354-357) | `OatFile.BareThumbExample`, an input that producer excludes |
| The header in front of a method's code is the method's own | the first method with that code has the same frame (`OatFile.HeaderIsOwn`) | `OatFile.FrameOfAnotherMethod` |
| `.dynamic` and the loaded size are as predicted | the page after `.hash` has room for the difference between `.dynsym` and `.hash`; so it is for every file name of at most 255 bytes (`ElfDynamic.PredictionsHold`, `ElfDynamic.FileNamesFit`) | `ElfDynamic.LongNameExample` |
| Every dynamic symbol lies in the section it names | there is code or no `.bss`, and a last word fits (`ElfSymbols.SymbolsInSections`) | `ElfSymbols.EmptyTextExample` |
| Segments map every section as its header says | neighbours with equal rights have equal distances between file and memory (`ElfLoads.LoadsFaithful`); the writer's own section order always does (`ElfWriterQuick.FileLoads`) | `ElfLoads.InterleavedNotMapped` |
| A bin slot is read back as stored, and its object put where the slot is | bits 27 to 29 of the index are zero and none is cut off (`BinSlot.RoundTrip`, `ImageWalk.SlotUnbinned`) | `BinSlot.IndexLost` |
| All objects of an image are put where their slots are, in every order | no object has a bin that needs 128 MiB without it, for bins that need less than 1 GiB (`ImageOrders.EveryOrder`); the condition suffices without that bound (`ImageWalk.ImageWriter.CalculateNewObjectOffsets`) | `ImageOrders.LargeAndSmall`, and `ImageOrders.BadOrder` for all others |
| The same, in some order | every bin has an object without which it needs less than 128 MiB, for bins that need less than 1 GiB (`ImageOrders.SomeOrder`); if this holds and the condition above does not, the order decides (`ImageOrders.OrderDecides`) | `ImageDemand.SomeUnreadable` |
| The pointer of a method object in the image leads to its method | the method is in an image that begins where the first one does, because the fix-up counts from the global begin (`ImageCopy.MethodPointerLeads`) | `ImageCopy.MethodOfSecondImage` |
| A lookup in the compressed source map is one in the plain map | the first and last entry kept for an address agree (`SrcMap.FindExact`); so they do for strictly increasing addresses | `SrcMap.EqualAddressExample` |
| The copy of a string has the string's own lock word | the last copied of the strings equal to it has the same one (`ImageCopy.ImageIsCopy`) | `ImageCopy.HashCodeLost` |

## Model

| member | source | states |
|---|---|---|
| Prune.ImageWriter.PruneAppImageClassInternal | art-extension/compiler/image_writer.cc:715-802 | A positive answer is right for good; a negative one is right unless a cut-off search is still open above it; every memo entry is right; terminates on cyclic graphs |
| Prune.ImageWriter.PruneAppImageClass | art-extension/compiler/image_writer.cc:709-713 | True exactly if a bad class can be reached through classes outside the boot image, for any sequence of queries that share the memo table |
| Prune.ImageWriter.KeepClass | art-extension/compiler/image_writer.cc:804-838 | Answers exactly the kept classes, for boot images and app images |
| Prune.ImageWriter.PruneNonImageClasses | art-extension/compiler/image_writer.cc:840-920 | Collects exactly the classes that are not kept, clears exactly the resolved types, methods and fields of classes that are not kept, and copied methods, and drops the memo table |
| Prune.KeptClosedUnderDependencies | art-extension/compiler/image_writer.cc:715-802 | A kept class depends on kept or boot classes only |
| Prune.KeptIsGreatest | art-extension/compiler/image_writer.cc:715-802 | Every closed set of good classes is kept: nothing is pruned needlessly |
| Prune.NoBadPathAround | art-extension/compiler/image_writer.cc:715-802 | Cutting a class off loses no bad path that does not come back to it |
| BinSlot.RoundTrip | art-extension/compiler/image_writer.cc:2175-2196 | Bin and index come back from the packed word if and only if the index leaves the bits of the bin free |
| BinSlot.ReadBack | art-extension/compiler/image_writer.cc:2175-2196 | What a word gives for any index, also one beyond 32 bits: the slot itself, or a smaller index, or a later bin |
| BinSlot.IndexLost | art-extension/compiler/image_writer.cc:2185-2196 | The index 2^27 is read back as 0 |
| ImageBins.BinByKind | art-extension/compiler/image_writer.cc:504-592 | For every bin of mirror objects, exactly the objects that go there |
| ImageBins.AllocateBumped | art-extension/compiler/image_writer.cc:597-609 | Taking the next part of a bin keeps all allocations inside their bins and apart |
| ImageBins.AllocateAddsUp | art-extension/compiler/image_writer.cc:1405-1408 | The end of an image stays the sum of its mirror bins |
| ImageBins.AssignedSlotted | art-extension/compiler/image_writer.cc:491-609 | A new slot is shared with no other object |
| ImageBins.SharingSlotted | art-extension/compiler/image_writer.cc:994-1001 | A string that takes the slot of its interned version shares it exactly with its equals |
| ImageBins.CalculatedInv | art-extension/compiler/image_writer.cc:975-1007 | Giving any object a slot keeps every invariant and every earlier slot, also when the interned string is placed early |
| ImageBins.NativeAddedInv | art-extension/compiler/image_writer.cc:1164-1240 | Forwarding a native array keeps every invariant |
| ImageBins.ElementAt | art-extension/compiler/image_writer.cc:1173-1196 | Element i of a native array is behind its header and i elements |
| ImageBins.ReplayInv | art-extension/compiler/image_writer.cc:1332-1370 | After every sequence of steps: allocations apart and inside, objects aligned, ends add up, two objects share a slot exactly if they are equal strings, lock words hold the slots |
| ImageOffsets.CalculateBinOffsets | art-extension/compiler/image_writer.cc:1384-1404 | Bins follow each other from the header on; those of methods start at the least multiple of the method alignment behind the bin before, that of conflict tables at the least multiple of the pointer size |
| ImageOffsets.MirrorStart | art-extension/compiler/image_writer.cc:1384-1408 | Mirror bins follow each other without gaps |
| ImageOffsets.BinsAscend | art-extension/compiler/image_writer.cc:1384-1404 | No bin starts before an earlier one has ended |
| ImageOffsets.InItsPart | art-extension/compiler/image_writer.cc:1405-1408 | Objects lie between the header and image_end_, native data at or after image_end_ |
| ImageOffsets.AllocationsDisjoint | art-extension/compiler/image_writer.cc:353-365 | No two allocations of an image overlap, across all bins |
| ImageOffsets.ObjectPlaced | art-extension/compiler/image_writer.cc:353-365 | Every object is 8-aligned and inside the object part of its image |
| ImageOffsets.ObjectsApart | art-extension/compiler/image_writer.cc:994-1001 | Two objects overlap only if they are equal strings, and those are in the same place |
| ImageOffsets.NativeElement | art-extension/compiler/image_writer.cc:1431-1438 | The final offset of element i of a forwarded array is the array's plus header plus i elements, after all objects |
| ImageOffsets.ReplayMethods | art-extension/compiler/image_writer.cc:1200-1228 | If methods and the headers of their arrays have aligned sizes, every method is aligned in its bin, after every sequence of steps |
| ImageOffsets.MethodAligned | art-extension/compiler/image_writer.cc:1388-1395 | Then it is aligned in the image |
| ImageDemand.TotalRemove | art-extension/compiler/image_writer.cc:597-609 | The room a set of objects needs does not depend on the order in which it is added up |
| ImageDemand.ReplayMeets | art-extension/compiler/image_writer.cc:491-609 | After any steps every bin of objects is exactly as large as the objects with a slot need it, equal strings counted once |
| ImageDemand.SizesOfHeap | art-extension/compiler/image_writer.cc:1367-1370 | Once every object has a slot, the size of a bin is a function of the heap alone |
| ImageDemand.AllReadable | art-extension/compiler/image_writer.cc:2185-2196 | If no object has a bin that needs 128 MiB without it, every slot of every order is read back |
| ImageDemand.ReplayCovered | art-extension/compiler/image_writer.cc:597-609 | Every byte of a bin belongs to an object |
| ImageDemand.SomeUnreadable | art-extension/compiler/image_writer.cc:2185-2196 | If a bin needs 128 MiB even without its largest object, and that has at most 896 MiB, every order has a slot that is not read back |
| ImageOrders.PlacedLast | art-extension/compiler/image_writer.cc:491-609 | There is an order that puts an object, with the strings equal to it, behind everything else in its bin |
| ImageOrders.EveryOrder | art-extension/compiler/image_writer.cc:2185-2196 | For bins that need less than 1 GiB: every order reads all slots back if and only if no object has a bin that needs 128 MiB without it |
| ImageOrders.GoodOrder | art-extension/compiler/image_writer.cc:2185-2196 | With the objects that can come last at the end, all slots are read back |
| ImageOrders.SomeOrder | art-extension/compiler/image_writer.cc:2185-2196 | For bins that need less than 1 GiB: some order reads all slots back if and only if every bin has an object without which it needs less than 128 MiB |
| ImageOrders.BadOrder | art-extension/compiler/image_writer.cc:2185-2196 | If a bin needs 128 MiB without an object, the order that puts this object last has a slot that is not read back |
| ImageOrders.OrderDecides | art-extension/compiler/image_writer.cc:2185-2196 | For every heap between the two conditions there is a good order and a bad one |
| ImageOrders.LargeAndSmall | art-extension/compiler/image_writer.cc:2185-2196 | An object of 128 MiB and one of 8 bytes are such a heap |
| ImageWalk.ImageWriter.AssignImageBinSlot | art-extension/compiler/image_writer.cc:491-609 | The new state is the allocation of the rounded size with the packed slot in the lock word |
| ImageWalk.ImageWriter.CalculateObjectBinSlots | art-extension/compiler/image_writer.cc:975-1007 | The new state is the one the specification gives, strings through the intern table |
| ImageWalk.ImageWriter.AssignNativeArray | art-extension/compiler/image_writer.cc:1164-1240 | Header and elements are taken one after the other from the array's bin |
| ImageWalk.ImageWriter.ForwardArrays | art-extension/compiler/image_writer.cc:1164-1240 | All native arrays of an object are forwarded, each of them once, so the checks against forwarding twice pass |
| ImageWalk.ImageWriter.WalkReferences | art-extension/compiler/image_writer.cc:1117-1257 | Everything an object refers to has a slot or is in the boot image |
| ImageWalk.ImageWriter.WalkFieldsInOrder | art-extension/compiler/image_writer.cc:1117-1257 | Terminates on every heap graph and keeps the invariant and all slots; the object gets the next slot, before what it refers to; every object that gets a slot on the way has its native arrays forwarded and, but for interned strings, its references walked |
| ImageWalk.ImageWriter.WalkHeap | art-extension/compiler/image_writer.cc:1367-1368 | Every object outside the boot image has a slot and all its native arrays are forwarded |
| ImageWalk.SlotUnbinned | art-extension/compiler/image_writer.cc:1319-1330 | The offset made from a lock word is that of the slot if and only if the slot can be read back |
| ImageWalk.ImageWriter.UnbinObject | art-extension/compiler/image_writer.cc:1319-1330 | The same of the method that computes it |
| ImageWalk.ImageWriter.UpdateNativeRelocations | art-extension/compiler/image_writer.cc:1431-1438 | Every native allocation gets its offset in the image |
| ImageWalk.HeaderRelocated | art-extension/compiler/image_writer.cc:1431-1438 | A forwarded array lies behind all objects of its image, and its elements in a row behind its header |
| ImageWalk.ObjectsUnbinned | art-extension/compiler/image_writer.cc:1421-1422 | What the offsets are worth once all objects have slots: bin sizes, placement, and misplacement |
| ImageWalk.ImageWriter.CalculateNewObjectOffsets | art-extension/compiler/image_writer.cc:1332-1438 | For every heap and every visiting order: bins have the sizes the heap demands and follow each other with the alignment their contents need; if no object has a bin that needs 128 MiB without it, all objects get offsets that are aligned, inside their image, and apart unless they are equal strings; if a bin needs 128 MiB without its largest object, of at most 896 MiB, some object is misplaced; all native arrays of all classes are behind the objects, elements in a row, apart, and methods aligned |
| ImageCopy.ImageCopier.CopyAndFixupObject | art-extension/compiler/image_writer.cc:1763-1787 | The place of the object holds its copy with references replaced, and nothing else changes |
| ImageCopy.ImageCopier.FixupObject | art-extension/compiler/image_writer.cc:1899-1953 | Every reference of the raw copy is replaced by the image address of its target, every pointer to native data (of classes, dex caches and pointer arrays) by that of the array, field or method, every pointer of a method object by the global begin plus the offset of the method; what has to be cleared is cleared |
| ImageCopy.ImageCopier.CopyAndFixupObjects | art-extension/compiler/image_writer.cc:1710-1712 | After all objects, if their offsets keep them apart, each copy is what the last copied of its equals put there |
| ImageCopy.CopyKept | art-extension/compiler/image_writer.cc:1763-1787 | Copying one object leaves every other copy alone or turns that of an equal string into its own |
| ImageCopy.ImageIsCopy | art-extension/compiler/image_writer.cc:1763-1809 | Every cell of every object is in the image, references and pointers translated; lock word and cached hash of a string are those of the equal string copied last, and the lock word is the string's own if and only if that one has the same |
| ImageCopy.CellsInImage | art-extension/compiler/image_writer.cc:1763-1821 | Every cell of every object, from the heap and the offsets alone: data as it is, cleared fields 0, null as 0, references by image or boot address, pointers by the begin of the image, the offset of the array, its header and the elements before; the lock word is the one saved for the object copied last to that place, or 0 |
| ImageCopy.ReferenceLeadsToCopy | art-extension/compiler/image_writer.h:78-87 | Following a reference in the image leads to the copy of its target |
| ImageCopy.PointerLeadsToNative | art-extension/compiler/image_writer.cc:1853-1864 | Following a pointer in the image leads to the native array, field or method it pointed to |
| ImageCopy.MethodPointerLeads | art-extension/compiler/image_writer.cc:1923-1933 | The pointer of a method object leads to its method if and only if the method's image begins where the first image does |
| ImageCopy.MethodOfSecondImage | art-extension/compiler/image_writer.cc:1923-1933 | A method of the second image whose method object points into the first |
| ImageCopy.HashCodeLost | art-extension/compiler/image_writer.cc:1780-1785 | Of two equal strings the later copy overwrites the saved hash code of the earlier |
| ImageCopy.PlaceObjects | art-extension/compiler/image_writer.cc:1332-1438 | The layout gives every object, native array and element an offset, elements in a row, and if the heap fits it keeps objects apart and arrays behind them |
| ImageCopy.WriteImage | art-extension/compiler/image_writer.cc:1710-1720 | Layout and copy together give an image in which every cell of every object is as CellsInImage says, whenever no object has a bin that needs 128 MiB without it |
| ImageTiling.AddressSpace.constructor | art-extension/compiler/image_writer.cc:1410-1419 | Images start at the global begin, on pages, without gaps; each has room for its bins, the interned strings and the class table, both aligned to 8, and less than a page more; everything allocated for it is in there |
| ImageTiling.AddressSpace.UpdateOatFileLayout | art-extension/compiler/image_writer.cc:2249-2276 | Places one oat file and announces the offset of the next; all else is unchanged |
| ImageTiling.AddressSpace.WriteOatFiles | art-extension/dex2oat/dex2oat.cc:1867-1887 | After any number of files: images still tile, oat files tile from their end on, and each file's data lies inside the loaded file |
| ImageTiling.DeclaredLayout | art-extension/compiler/elf_builder.h:634-710 | The loaded size is whole pages and covers the oat data |
| ImageTiling.ImagesBeforeOatFiles | art-extension/compiler/image_writer.cc:2253-2262 | Every image ends before every oat file |
| ImageTiling.OatFilesAscend | art-extension/compiler/image_writer.cc:2269-2275 | Oat files are disjoint and in order |
| ImageTiling.ImagesAscend | art-extension/compiler/image_writer.cc:1410-1419 | Images are disjoint and in order |
| ImageTiling.AllocationInImage | art-extension/compiler/image_writer.cc:1443-1493 | Everything allocated for an image ends before its last section does |
| Align.RoundUp | art-extension/compiler/elf_builder.h:743-749 | The result is the next multiple |
| Align.InstructionSet.Mod | art-extension/runtime/arch/instruction_set.cc:93-116 | 16 for exactly the 64-bit ARM and the Intel instruction sets, else 8 |
| Align.InstructionSet.Residue | art-extension/runtime/arch/instruction_set.cc:93-116 | 2 for exactly the Intel instruction sets, else 0 |
| Align.InstructionSet.AlignCodeLeast | art-extension/compiler/compiled_method.cc:51-82 | Aligned code starts at the least admissible offset |
| OatVisit.ScheduleVisits | art-extension/compiler/oat_writer.cc:1422-1479 | The two sweeps process a compiled method for every definition of one, and nothing else |
| OatVisit.StablePartition | art-extension/compiler/oat_writer.cc:1463-1479 | Hot methods first, each group in definition order, none twice |
| OatVisit.SlotIdentifiesMethod | art-extension/compiler/oat_writer.cc:729-746 | A class and a slot determine the method |
| OatVisit.NothingHot | art-extension/compiler/oat_writer.cc:634-644 | Without hot methods the first sweep does nothing |
| OatVisit.OatDexMethodVisitor.VisitMethod | art-extension/compiler/oat_writer.cc:634-644 | Processes a method in exactly one of the two sweeps and counts its slot in both |
| OatVisit.OatDexMethodVisitor.VisitDexMethodsTwice | art-extension/compiler/oat_writer.cc:1463-1479 | The visits made are the schedule, and the end of the code is handled once |
| OatLayout.KnownIsShared | art-extension/compiler/oat_writer.cc:760-786 | Code is reused exactly if an earlier visit has the same code key or, when debuggable, the same method |
| OatLayout.LayoutPlaced | art-extension/compiler/oat_writer.cc:748-786 | Every entry has the required alignment, room for the header in front, and lies within what is laid out |
| OatLayout.NovelIsFirst | art-extension/compiler/oat_writer.cc:760-786 | Space is reserved exactly at first visits |
| OatLayout.LayoutSeparate | art-extension/compiler/oat_writer.cc:748-786 | Distinct pieces of code, with their headers, never overlap |
| OatLayout.SharedEntry | art-extension/compiler/oat_writer.cc:760-786 | Methods that share code have the same entry |
| OatLayout.LocationsAscend | art-extension/compiler/oat_writer.cc:811-824 | The absolute patch locations recorded over the whole layout ascend |
| OatLayout.PatchLocationsAre | art-extension/compiler/oat_writer.cc:811-824 | Of a method's patches exactly the absolute ones are recorded, each once |
| OatLayout.LocationsAre | art-extension/compiler/oat_writer.cc:811-824 | Over the whole layout exactly the places of the absolute patches of newly laid out code are recorded, each once |
| OatLayout.ThunksAre | art-extension/compiler/linker/arm/relative_patcher_arm_base.cc:52-136 | One thunk is reserved for each piece of new code that needs one |
| OatWrite.ThunksMatch | art-extension/compiler/linker/arm/relative_patcher_arm_base.cc:52-136 | A thunk is written exactly where one was reserved |
| OatWrite.ThunkBytes | art-extension/compiler/linker/arm/relative_patcher_arm_base.cc:52-136 | Every thunk written is in the output, aligned, where it was reserved |
| OatWrite.Simulation | art-extension/compiler/oat_writer.cc:1065-1188 | The write pass goes through the offsets of the layout pass |
| OatWrite.RepeatIsWritten | art-extension/compiler/oat_writer.cc:1085-1090 | Empty Thumb2 code visited again at once is written a second time |
| OatWrite.WritesExactlyFirstVisits | art-extension/compiler/oat_writer.cc:1085-1090 | The comparison of offsets recognises exactly the first visits if and only if there is no such repeat |
| OatWrite.SameEnd | art-extension/compiler/oat_writer.cc:1847-1868 | Both passes end at the same offset if there is no such repeat |
| OatWrite.RepeatRunsAhead | art-extension/compiler/oat_writer.cc:1085-1090 | After the first such repeat the write pass is at least a header ahead |
| OatWrite.EndsMayAgree | art-extension/compiler/oat_writer.cc:1847-1868 | The ends can agree all the same: a schedule of a program with a repeat after which a method is not written |
| OatWrite.NoBareRepeat | art-extension/compiler/dex/dex_to_dex_compiler.cc:354-357 | If all Thumb2 methods have code, there is no such repeat |
| OatWrite.FirstVisitBytes | art-extension/compiler/oat_writer.cc:1085-1188 | New code and its header are in the output where the layout put them |
| OatWrite.CountersAddUp | art-extension/compiler/oat_writer.cc:1085-1188 | At every visit and at the end, the four counters of the code pass add up to the bytes it wrote and to the offset |
| OatWrite.CountersAre | art-extension/compiler/oat_writer.cc:1085-1188 | What each of them counts: a header and the code of every visit that writes, and every thunk |
| OatWrite.CountersInStep | art-extension/compiler/oat_writer.cc:1085-1188 | Without a repeat: one header and one copy for each distinct piece of code, and the thunks that were needed |
| OatMaps.OffsetRoundTrip | art-extension/compiler/oat_writer.cc:788-809 | An offset stored negated, rebased and subtracted again comes back, in 32-bit arithmetic |
| OatMaps.NewTableIsFirst | art-extension/compiler/oat_writer.cc:903-936 | A table is placed exactly at its first visit |
| OatMaps.TableFromHeader | art-extension/compiler/oat_writer.cc:1365-1380 | The header's field leads to the table, and is zero exactly without one |
| OatMaps.MapSimulation | art-extension/compiler/oat_writer.cc:1365-1409 | Each distinct table is written once, at its first visit, in step with the layout |
| OatMaps.TableBytes | art-extension/compiler/oat_writer.cc:1365-1409 | Every method's table is in the output where its header leads |
| OatMaps.FieldLeads | art-extension/compiler/oat_writer.cc:1365-1409 | The vmap field in front of any method's code leads to the method's own table, and is zero exactly without one |
| OatPatches.LeadsToTarget | art-extension/compiler/linker/x86/relative_patcher_x86_base.cc:37-49 | Place plus stored word is the target, for absolute patches of all instruction sets and relative ones of x86 and x86-64 |
| OatPatches.LiteralsLead | art-extension/compiler/oat_writer.cc:1117-1174 | After all patches every literal leads to its target if literals are disjoint |
| OatPatches.LiteralsEncoded | art-extension/compiler/oat_writer.cc:1117-1174 | For the other instruction sets every disjoint relative literal is what their patcher made of the code patched so far |
| OatPatches.OtherBytesUnchanged | art-extension/compiler/oat_writer.cc:1117-1174 | Bytes outside the literals are the compiler's |
| OatPatches.PatchCode | art-extension/compiler/oat_writer.cc:1117-1174 | The loop over the patches leaves the specified bytes in the buffer |
| OatPatches.StoreWord | art-extension/compiler/oat_writer.cc:1285-1351 | Stores four bytes, little end first, and nothing else |
| OatFile.EntryLeadsToMethod | art-extension/compiler/oat_writer.cc:788-809 | From any method's entry: its own patched code, and in front of it a header with its code size that leads to its own vmap table; frame size, core and floating point spill masks are, in this order, those of the method that wrote it |
| OatFile.HeaderIsOwn | art-extension/compiler/oat_writer.cc:788-809 | The frame words of the header are the method's own if and only if the first method with that code has its frame |
| OatFile.FrameOfAnotherMethod | art-extension/compiler/oat_writer.cc:788-809 | Two methods with equal code and different frames |
| OatFile.BareThumbExample | art-extension/compiler/oat_writer.cc:1085-1090 | Empty Thumb2 code in two methods is such a repeat |
| OatVisitors.InitMapMethodVisitor.VisitMethod | art-extension/compiler/oat_writer.cc:903-936 | One step of the map layout |
| OatVisitors.InitCodeMethodVisitor.VisitMethod | art-extension/compiler/oat_writer.cc:748-873 | One step of the code layout, in the fields of the visitor and the class tables |
| OatVisitors.WriteMapMethodVisitor.VisitMethod | art-extension/compiler/oat_writer.cc:1365-1409 | One step of writing the tables |
| OatVisitors.WriteCodeMethodVisitor.VisitMethod | art-extension/compiler/oat_writer.cc:1065-1188 | One step of writing the code |
| OatVisitors.InitOatMaps | art-extension/compiler/oat_writer.cc:1526-1533 | The visitor's states are a run of the map layout |
| OatVisitors.InitOatCodeDexFiles | art-extension/compiler/oat_writer.cc:1572-1589 | The visitor's states are a run of the code layout and the class tables hold its entries |
| OatVisitors.WriteCode | art-extension/compiler/oat_writer.cc:1847-1868 | The visitor's states are a run of the write pass |
| OatVisitors.InitOatCode | art-extension/compiler/oat_writer.cc:1535-1570 | The executable offset is the next page, and the trampolines follow it, aligned as code |
| OatVisitors.WriteMethods | art-extension/compiler/oat_writer.cc:478-518 | All passes together produce runs to which the theorems of OatFile apply, and every slot holds its method's entry |
| ClassRecords.InitOatClass | art-extension/compiler/oat_writer.cc:2463-2515 | Type, bitmap and recorded offsets follow from which methods are compiled |
| ClassRecords.InitOatClasses | art-extension/compiler/oat_writer.cc:695-713 | Records and offsets follow from the classes, each record right behind the one before |
| ClassRecords.WriteOatClass | art-extension/compiler/oat_writer.cc:2539-2576 | Writes the record the runtime will read, in exactly SizeOf bytes, all of them in one of four counters |
| ClassRecords.WriteClasses | art-extension/compiler/oat_writer.cc:1796-1804 | After all classes the record of every class is in the file at the offset the layout gave it, and the counters add up to the bytes written |
| ClassRecords.BitRead | art-extension/runtime/base/bit_vector.h:252-254 | Bit i of the stored bitmap is set exactly if method i is compiled |
| ClassRecords.EntryFound | art-extension/runtime/oat_file.cc:1268-1288 | The runtime finds nothing for a method without code and else the entry the writer recorded |
| ClassRecords.EntryHoldsCode | art-extension/runtime/oat_file.cc:1290-1303 | That entry holds the code word written for the method's rank |
| OatWriter.WriteClassOffsets | art-extension/compiler/oat_writer.cc:1778-1794 | The table of class offsets, one word for each class |
| OatWriter.WriteFront | art-extension/compiler/oat_writer.cc:1591-1609 | The table and all class records, with the code offsets of the layout in them |
| OatWriter.WriteTrampolines | art-extension/compiler/oat_writer.cc:1818-1845 | Each trampoline is where the layout put it, and padding and code are counted |
| OatWriter.ClassFound | art-extension/runtime/oat_file.cc:1183-1224 | The stored class offset leads to the record of the class in the finished file |
| OatWriter.EntryOfSlot | art-extension/compiler/oat_writer.cc:729-746 | The slot the visitors count for a method is the rank at which the runtime finds its entry, and the word there is the method's own code offset |
| OatWriter.MethodInWholeFile | art-extension/runtime/oat_file.cc:1290-1303 | What the passes put into their parts is in the finished file |
| OatWriter.AllFound | art-extension/runtime/oat_file.cc:1268-1303 | For every class and every method of it: found with its patched code, header and vmap table if it is compiled, and not found if it is not |
| OatWriter.CallLeads | art-extension/compiler/oat_writer.cc:1216-1238 | In the finished file a call of a method with code goes to the offset at which the runtime finds that method |
| OatWriter.LocationsFound | art-extension/compiler/oat_writer.cc:811-824 | The recorded locations are exactly the literals of the absolute patches of all methods the runtime finds |
| OatWriter.AddressStored | art-extension/compiler/oat_writer.cc:1285-1351 | The word at such a location is the address of the called method's code, or else the one the patch refers to |
| OatWriter.WriteOat | art-extension/compiler/oat_writer.cc:1591-1715 | From classes and compiled methods to the bytes of the file: all counters add up to its size, and each counts what its name says; if offsets fit in 32 bits and there is no repeat (none if all Thumb2 methods have code), the size is the one the layout computed, every method of every class is found through the stored class offset, trampolines and thunks are in place, and the recorded patch locations are the absolute literals |
| PatchLocations.EncodeUnsignedLeb128 | art-extension/runtime/leb128.h:130-141 | Appends the ULEB128 form of section 7.6 of DWARF Version 4 |
| PatchLocations.UlebGroups | art-extension/runtime/leb128.h:130-141 | That form holds the value in groups of seven bits, lowest first, all but the last marked, and without a superfluous one |
| PatchLocations.DecodeEncoded | art-extension/runtime/leb128.h:31-58 | Decoding gives the encoded number back, wherever it stands |
| PatchLocations.EncodeOatPatches | art-extension/compiler/elf_builder.h:509-518 | Appends the list of deltas |
| PatchLocations.DecodeOatPatches | art-extension/compiler/elf_writer_test.cc:113-139 | Decoding the list gives the locations back |
| PatchLocations.ApplyOatPatches | art-extension/runtime/elf_file.cc:1380-1392 | Relocates the section in place at the decoded locations, with addresses of any size |
| PatchLocations.AddressMoved | art-extension/runtime/elf_file.cc:1380-1392 | The address there has moved by the delta, modulo the width of an address, and no byte around it has changed |
| PatchLocations.AllMoved | art-extension/runtime/elf_file.cc:1380-1392 | After the whole list, the address at every one of its disjoint locations has moved by the delta |
| PatchLocations.RelocatedElsewhere | art-extension/runtime/elf_file.cc:1380-1392 | No byte outside the locations has changed |
| PatchLocations.PatchingThroughTheList | art-extension/runtime/elf_file.cc:1380-1392 | Patching through the encoded list is patching at the original locations |
| PatchLocations.AscendingEncodable | art-extension/compiler/oat_writer.cc:811-824 | Ascending locations below 2^32 can be encoded |
| PatchLocations.LayoutLocationsDecode | art-extension/compiler/elf_builder.h:509-518 | The locations recorded by any layout that fits in 32 bits come back from their encoding |
| ElfSections.StartedWellLaid | art-extension/compiler/elf_builder.h:118-148 | Starting a section keeps all sections aligned, in order and disjoint, in file and memory |
| ElfSections.EndedWellLaid | art-extension/compiler/elf_builder.h:151-166 | So does ending one |
| ElfSections.ElfBuilder.Start | art-extension/compiler/elf_builder.h:118-148 | The new state, with indices 1 to n in order, and the invariant |
| ElfSections.ElfBuilder.End | art-extension/compiler/elf_builder.h:151-166 | The new state with the section's size, and the invariant |
| ElfSections.ElfBuilder.WriteSection | art-extension/compiler/elf_builder.h:188-194 | A whole section, NOBITS or not |
| ElfSections.WriteNames | art-extension/compiler/elf_builder.h:566-574 | The string at each recorded offset is the name it was recorded for |
| ElfSections.ElfBuilder.WriteSectionNames | art-extension/compiler/elf_builder.h:566-574 | Adds .shstrtab, in which the recorded offset of every section, its own included, leads to the name of the section |
| ElfLoads.MakeLoads | art-extension/compiler/elf_builder.h:826-878 | The loop gives the loads of the non-empty allocated sections |
| ElfLoads.LoadsFaithful | art-extension/compiler/elf_builder.h:849-878 | Every section is mapped as its header says if and only if merged neighbours have equal distances |
| ElfLoads.NotMapped | art-extension/compiler/elf_builder.h:864-871 | The first section merged at a wrong distance is mapped by no segment |
| ElfLoads.InterleavedNotMapped | art-extension/compiler/elf_builder.h:864-871 | Two read-only sections with one between them that is not loaded: the second one is mapped nowhere |
| ElfLoads.LoadsAscend | art-extension/compiler/elf_builder.h:849-878 | Segments ascend and are disjoint |
| ElfLoads.MappedOnce | art-extension/compiler/elf_builder.h:849-878 | A section lies in at most one segment |
| ElfLoads.SteadyAdded | art-extension/compiler/elf_builder.h:118-166 | Every admissible next section keeps the file loadable and its segments on pages |
| ElfLoads.LoaderSeesSections | art-extension/compiler/elf_builder.h:826-901 | Segments of such a file are ascending, on pages, and map every section |
| ElfLoads.NotLoaded | art-extension/compiler/elf_builder.h:851-851 | Sections that are not allocated do not change the segments |
| ElfDynamic.PredictionsHold | art-extension/compiler/elf_builder.h:619-720 | All predicted addresses are the realised ones; for .dynamic and the loaded size exactly if the page has room |
| ElfDynamic.FileNamesFit | art-extension/compiler/elf_builder.h:689-710 | It has for every name of at most 255 bytes |
| ElfDynamic.LongNameExample | art-extension/compiler/elf_builder.h:697-697 | A longer name for which .dynamic is elsewhere |
| ElfDynamic.DynamicPrediction | art-extension/compiler/elf_builder.h:689-697 | Using the size of .dynsym for that of .hash is harmless exactly if the page has room |
| ElfSymbols.SymbolsInSections | art-extension/compiler/elf_builder.h:644-669 | Every symbol lies in the section it names, with the exact condition |
| ElfSymbols.SymbolsByName | art-extension/compiler/elf_builder.h:644-669 | By name: oatdata, oatexec and oatbss are the sections .rodata, .text and .bss of the written file, oatlastword and oatbsslastword their last words, and these are all there are |
| ElfSymbols.EmptyTextExample | art-extension/compiler/elf_builder.h:662-669 | Without code the symbols of .bss name .text |
| ElfSymbols.PrepareDynamicSection | art-extension/compiler/elf_builder.h:644-687 | Symbols in order with their own names, the soname, and tables of the sizes used in the prediction |
| ElfSymbols.DynamicLeads | art-extension/compiler/elf_builder.h:699-707 | The entries of .dynamic fill it, end with the null entry, and lead to where .hash, .dynstr and .dynsym really are |
| ElfSymbols.AddSymbol | art-extension/compiler/elf_builder.h:358-389 | Adds one symbol and keeps the names of all others |
| ElfSymbols.Soname | art-extension/compiler/elf_builder.h:623-627 | What follows the last separator |
| ElfSymbols.MakeHash | art-extension/compiler/elf_builder.h:675-687 | One bucket and a chain through all symbols |
| ElfSymbols.ChainListsAll | art-extension/compiler/elf_builder.h:675-687 | A lookup meets every symbol exactly once and ends |
| ElfWriterQuick.FileLoads | art-extension/compiler/elf_builder.h:826-901 | For all sizes, with or without .bss and MIPS flags, loading the segments reproduces every section |
| ElfWriterQuick.WriteDynamicSection | art-extension/compiler/elf_writer_quick.cc:208-217 | Adds .bss, MIPS flags, tables and .dynamic in this order |
| ElfWriterQuick.RightsOfFile | art-extension/compiler/elf_builder.h:486-491 | .text may be executed, .bss and .dynamic written, everything else only read |
| ElfWriterQuick.WriteFile | art-extension/dex2oat/dex2oat.cc:1905-1935 | The written file has the sections, segments and loaded size of the theorems, every section its name, and every loaded section the rights for what it is |
| ElfWriterQuick.AllocateBss | art-extension/compiler/oat_writer.cc:519-529 | Arrays are handed out one after the other and fill the declared size |
| ElfWriterQuick.BssAgrees | art-extension/compiler/elf_builder.h:634-636 | The start of .bss the oat writer computes is the builder's |
| ElfWriterQuick.ArraysInBss | art-extension/compiler/oat_writer.cc:1271-1272 | Every array lies in the .bss section of the written file |
| SrcMap.Map.PushBack | art-extension/compiler/compiled_method.h:129-140 | The vector is the compressed form of all pushed entries |
| SrcMap.Map.LowerBound | art-extension/compiler/compiled_method.h:146-146 | The first entry that is not before the address |
| SrcMap.Map.Find | art-extension/compiler/compiled_method.h:144-157 | Answers like the plain map if first and last entries agree |
| SrcMap.CompressedLookup | art-extension/compiler/compiled_method.h:133-138 | Dropping entries that change nothing does not change the map |
| SrcMap.FindExact | art-extension/compiler/compiled_method.h:144-157 | Every query is answered right if and only if first and last entries for an address agree |
| SrcMap.StrictGroupsAgree | art-extension/compiler/compiled_method.h:129-140 | They do for strictly increasing addresses |
| SrcMap.EqualAddressExample | art-extension/compiler/compiled_method.h:132-132 | Two entries for one address, of which Find returns the older |

## Left out

- Files, streams, compression, checksums, error messages and timing: a stream is its bytes or its position.
- Seeking inside a section (dex files, the oat header written last): bytes are appended only.
- The nesting of classes in dex files: the visitors see one list of classes.
- How ARM and MIPS encode a relative patch, and when a branch is out of range: the encoded word and the places of thunks are arbitrary choices, and what is proved holds for all of them.
- The erratum thunks of the ARM64 patcher and the adjustment of the patcher between several oat files.
- What a patch refers to, other than a call of a method with code (methods, strings, types, dex cache elements, trampolines): an arbitrary function from patches to addresses.
- The runtime's intern table, class tables and class linker: an object graph with string values and a map from values to strings.
- Strings interned in the boot image when an app image is compiled: equal strings are all in the boot image or all outside.
- Runtime methods, conflict tables and the choice between clean and dirty methods: native arrays come with their bin, and the steps of `ImageBins` cover any further allocation.
- The contents of native arrays in the image (fields, methods and their entry points, dex cache arrays): the arrays are placed and pointed to, but their bytes are not modelled.
- The order of fields in an object: an object is a list of cells, some of which are references.
- 32-bit overflow of ELF addresses and image offsets: addresses are unbounded, except where slots and vmap offsets are packed into words.
- The part of `MakeProgramHeaders` that repeats sections as PT_DYNAMIC and the like, and the ELF header.
- The oat header, the dex files and the tables in front of the class offsets: a prefix of given bytes with a counter of its own.
- The high halves of 64-bit pointers in objects.
- Disassemblers, option parsing, the compiler back ends, and the file name handling of `dex2oat`.
- OatWrite.CountersAddUp: is about the code pass alone; OatWriter.WriteOat has the sum of all counters.
- OatWriter.WriteOat: takes what precedes the class offsets as given bytes, counted as one.
- ImageCopy.ImageCopier.FixupObject: leaves out the elements that dex caches hold in their native arrays, because native contents are not modelled.
- ImageCopy.WriteImage: states the image for heaps that fit; for the others the copy runs as well, and what can be said of it is in CalculateNewObjectOffsets.
- OatPatches.LiteralsLead: covers absolute patches and the relative ones of x86 and x86-64.
- ImageTiling.AddressSpace.WriteOatFiles: takes the loaded size each writer declares, which is the realised one exactly under the condition of ElfDynamic.PredictionsHold.
