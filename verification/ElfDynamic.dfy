/**
 * The loaded part of an oat file (compiler/elf_builder.h, compiler/elf_writer_quick.cc): addresses
 * are predicted from the declared sizes while .rodata is still being written, stored in .dynsym
 * and .dynamic and used to place the next file; the sections are written later.
 */
module ElfDynamic {
  import opened Align
  import opened ElfSections

  datatype ElfClass = Elf32 | Elf64 {
    function EhdrSize(): nat { if Elf32? then 52 else 64 }
    function PhdrSize(): nat { if Elf32? then 32 else 56 }
    function DynSize(): nat { if Elf32? then 8 else 16 }
    function OffSize(): nat { if Elf32? then 4 else 8 }
    /** The room reserved for the ELF header and 16 program headers. */
    function Headers(): (h: nat)
      ensures h == if Elf32? then 564 else 960
    {
      EhdrSize() + 16 * PhdrSize()
    }
  }

  /** What is known when the addresses are predicted; `soname` is the length of the file's name. */
  datatype Sizes = Sizes(elf: ElfClass, mips: bool, rodata: nat, text: nat, bss: nat, soname: nat) {
    function SymbolCount(): nat {
      2 + (if text != 0 then 2 else if rodata != 0 then 1 else 0) + (if bss != 0 then 2 else 0)
    }

    function DynstrSize(): nat {
      9 + (if text != 0 then 20 else if rodata != 0 then 12 else 0) + (if bss != 0 then 22 else 0) + soname + 1
    }

    function DynsymSize(): nat { if elf.Elf32? then 16 * SymbolCount() else 24 * SymbolCount() }

    function HashSize(): nat { 4 * (SymbolCount() + 3) }

    function DynamicSize(): nat { 7 * elf.DynSize() }

    /** Where .hash ends, counted from .dynstr. */
    function TablesEnd(): nat {
      RoundUp(RoundUp(DynstrSize(), elf.OffSize()) + DynsymSize(), 4) + HashSize()
    }

    /** After the tables, the page has room for the difference between .dynsym and .hash. */
    predicate Room() {
      RoundUp(TablesEnd(), PAGE_SIZE) - TablesEnd() >= DynsymSize() - HashSize()
    }
  }

  datatype Addresses = Addresses(rodata: nat, text: nat, bss: nat, abiflags: nat, dynstr: nat, dynsym: nat,
                                 hash: nat, dynamic: nat, loadedSize: nat)

  const ABIFLAGS_SIZE: nat := 24

  /** PrepareDynamicSection; the end of .hash is computed with the size of .dynsym. */
  function Predicted(z: Sizes): Addresses {
    var rodata := RoundUp(z.elf.Headers(), PAGE_SIZE);
    var text := RoundUp(rodata + z.rodata, PAGE_SIZE);
    var bss := RoundUp(text + z.text, PAGE_SIZE);
    var abiflags := RoundUp(bss + z.bss, PAGE_SIZE);
    var dynstr := RoundUp(abiflags + (if z.mips then ABIFLAGS_SIZE else 0), PAGE_SIZE);
    var dynsym := RoundUp(dynstr + z.DynstrSize(), z.elf.OffSize());
    var hash := RoundUp(dynsym + z.DynsymSize(), 4);
    var dynamic := RoundUp(hash + z.DynsymSize(), PAGE_SIZE);
    Addresses(rodata, text, bss, abiflags, dynstr, dynsym, hash, dynamic,
              RoundUp(dynamic + z.DynamicSize(), PAGE_SIZE))
  }

  const RODATA := Spec(".rodata", false, Allocated, PAGE_SIZE, ReadOnly)
  const TEXT := Spec(".text", false, AllocatedExec, PAGE_SIZE, ReadExec)
  const BSS := Spec(".bss", true, Allocated, PAGE_SIZE, ReadWrite)
  const ABIFLAGS := Spec(".MIPS.abiflags", false, Allocated, PAGE_SIZE, ReadOnly)
  const DYNSTR := Spec(".dynstr", false, Allocated, PAGE_SIZE, ReadOnly)
  const HASH := Spec(".hash", false, Allocated, 4, ReadOnly)
  const DYNAMIC := Spec(".dynamic", false, Allocated, PAGE_SIZE, ReadWrite)

  function Dynsym(elf: ElfClass): Spec {
    Spec(".dynsym", false, Allocated, elf.OffSize(), ReadOnly)
  }

  /** The calls of the driver up to EndText: .text is written even if it is empty. */
  function WithCode(z: Sizes): Builder {
    Added(Added(Builder(z.elf.Headers(), z.elf.Headers(), [], false), RODATA, z.rodata), TEXT, z.text)
  }

  function WithBss(z: Sizes, b: Builder): Builder {
    if z.bss != 0 then Added(b, BSS, z.bss) else b
  }

  function WithAbiflags(z: Sizes, b: Builder): Builder {
    if z.mips then Added(b, ABIFLAGS, ABIFLAGS_SIZE) else b
  }

  function WithTables(z: Sizes, b: Builder): Builder {
    Added(Added(Added(b, DYNSTR, z.DynstrSize()), Dynsym(z.elf), z.DynsymSize()), HASH, z.HashSize())
  }

  /** Everything ElfWriterQuick writes before the sections that are not loaded. */
  function Written(z: Sizes): Builder {
    Added(WithTables(z, WithAbiflags(z, WithBss(z, WithCode(z)))), DYNAMIC, z.DynamicSize())
  }

  /** A section of the table, by position. */
  predicate SectionIs(b: Builder, i: int, spec: Spec, addr: nat, size: nat) {
    0 <= i < |b.sections| && b.sections[i].spec == spec && b.sections[i].addr == addr && b.sections[i].size == size
  }

  lemma CodeAddresses(z: Sizes, p: Addresses)
    requires p == Predicted(z)
    ensures var b := WithCode(z);
            && |b.sections| == 2
            && SectionIs(b, 0, RODATA, p.rodata, z.rodata)
            && SectionIs(b, 1, TEXT, p.text, z.text)
            && b.virtualAddress == p.text + z.text
  {
  }

  /** A section that starts on a page, and where the next one will start. */
  lemma PageSection(b: Builder, spec: Spec, size: nat, addr: nat)
    requires spec.align == PAGE_SIZE && spec.flags.Alloc() && addr == RoundUp(b.virtualAddress, PAGE_SIZE)
    ensures var t := Added(b, spec, size);
            && b.sections <= t.sections && |t.sections| == |b.sections| + 1
            && SectionIs(t, |b.sections|, spec, addr, size)
            && t.virtualAddress == addr + size
  {
  }

  /** The position of .dynstr in the table. */
  function DynstrAt(z: Sizes): nat {
    2 + (if z.bss != 0 then 1 else 0) + (if z.mips then 1 else 0)
  }

  /** .bss and the MIPS flags, which may be missing. */
  lemma OptionalAddress(b: Builder, present: bool, spec: Spec, size: nat, addr: nat)
    requires spec.align == PAGE_SIZE && spec.flags.Alloc() && addr == RoundUp(b.virtualAddress, PAGE_SIZE)
    requires !present ==> size == 0
    ensures var t := if present then Added(b, spec, size) else b;
            && b.sections <= t.sections && |t.sections| == |b.sections| + (if present then 1 else 0)
            && (present ==> SectionIs(t, |b.sections|, spec, addr, size))
            && RoundUp(t.virtualAddress, PAGE_SIZE) == RoundUp(addr + size, PAGE_SIZE)
  {
    if present {
      PageSection(b, spec, size, addr);
    } else {
      RoundUpUnique(addr, PAGE_SIZE, addr);
    }
  }

  lemma TableAddresses(z: Sizes, d: Builder, p: Addresses)
    requires p.dynstr == RoundUp(d.virtualAddress, PAGE_SIZE)
    requires p.dynsym == RoundUp(p.dynstr + z.DynstrSize(), z.elf.OffSize())
    requires p.hash == RoundUp(p.dynsym + z.DynsymSize(), 4)
    ensures var t, n := WithTables(z, d), |d.sections|;
            && d.sections <= t.sections && |t.sections| == n + 3
            && SectionIs(t, n, DYNSTR, p.dynstr, z.DynstrSize())
            && SectionIs(t, n + 1, Dynsym(z.elf), p.dynsym, z.DynsymSize())
            && SectionIs(t, n + 2, HASH, p.hash, z.HashSize())
            && t.virtualAddress == p.hash + z.HashSize()
  {
  }

  /** The end of .hash as it is written, and as it is predicted, in terms of the declared sizes. */
  lemma HashEnd(z: Sizes, dynstr: nat)
    requires dynstr % PAGE_SIZE == 0
    ensures var hash := RoundUp(RoundUp(dynstr + z.DynstrSize(), z.elf.OffSize()) + z.DynsymSize(), 4);
            hash + z.HashSize() == dynstr + z.TablesEnd()
  {
    DividesTrans(dynstr, z.elf.OffSize(), PAGE_SIZE);
    RoundUpShift(z.DynstrSize(), dynstr, z.elf.OffSize());
    DividesTrans(dynstr, 4, PAGE_SIZE);
    RoundUpShift(RoundUp(z.DynstrSize(), z.elf.OffSize()) + z.DynsymSize(), dynstr, 4);
  }

  /** Rounding up does not see an increment exactly if the page has room for it. */
  lemma RoomToRound(x: nat, more: nat)
    ensures RoundUp(x + more, PAGE_SIZE) == RoundUp(x, PAGE_SIZE) <==> RoundUp(x, PAGE_SIZE) - x >= more
  {
    if RoundUp(x, PAGE_SIZE) - x >= more {
      RoundUpUnique(x + more, PAGE_SIZE, RoundUp(x, PAGE_SIZE));
    }
  }

  /** The same, counted from the start of a page. */
  lemma RoomFrom(start: nat, x: nat, more: nat)
    requires start % PAGE_SIZE == 0
    ensures RoundUp(start + x + more, PAGE_SIZE) == RoundUp(start + x, PAGE_SIZE)
            <==> RoundUp(x, PAGE_SIZE) - x >= more
  {
    RoundUpShift(x, start, PAGE_SIZE);
    RoomToRound(start + x, more);
  }

  /** .hash is never larger than .dynsym. */
  lemma HashIsSmaller(z: Sizes)
    ensures z.HashSize() <= z.DynsymSize()
  {
    assert z.SymbolCount() <= 6;
  }

  lemma DynamicPrediction(z: Sizes, dynstr: nat, hash: nat)
    requires dynstr % PAGE_SIZE == 0 && hash + z.HashSize() == dynstr + z.TablesEnd()
    ensures RoundUp(hash + z.HashSize(), PAGE_SIZE) == RoundUp(hash + z.DynsymSize(), PAGE_SIZE) <==> z.Room()
  {
    HashIsSmaller(z);
    RoomFrom(dynstr, z.TablesEnd(), z.DynsymSize() - z.HashSize());
  }

  lemma LoadedSizeFollows(dynamic: nat, predicted: nat, size: nat)
    requires dynamic % PAGE_SIZE == 0 && predicted % PAGE_SIZE == 0
    ensures RoundUp(dynamic + size, PAGE_SIZE) == RoundUp(predicted + size, PAGE_SIZE) <==> dynamic == predicted
  {
    RoundUpShift(size, dynamic, PAGE_SIZE);
    RoundUpShift(size, predicted, PAGE_SIZE);
  }

  /** .rodata, .text, .bss and the MIPS flags get the addresses predicted for them. */
  ghost predicate CodePlaced(z: Sizes, p: Addresses, b: Builder) {
    && SectionIs(b, 0, RODATA, p.rodata, z.rodata)
    && SectionIs(b, 1, TEXT, p.text, z.text)
    && (z.bss != 0 ==> SectionIs(b, 2, BSS, p.bss, z.bss))
    && (z.mips ==> SectionIs(b, DynstrAt(z) - 1, ABIFLAGS, p.abiflags, ABIFLAGS_SIZE))
  }

  /** .dynstr, .dynsym and .hash are at the addresses stored in .dynamic. */
  ghost predicate TablesPlaced(z: Sizes, p: Addresses, b: Builder) {
    var n := DynstrAt(z);
    && SectionIs(b, n, DYNSTR, p.dynstr, z.DynstrSize())
    && SectionIs(b, n + 1, Dynsym(z.elf), p.dynsym, z.DynsymSize())
    && SectionIs(b, n + 2, HASH, p.hash, z.HashSize())
  }

  /** How the last of the predicted addresses follow from each other. */
  ghost predicate Tail(z: Sizes, p: Addresses) {
    && p.dynstr % PAGE_SIZE == 0
    && p.dynsym == RoundUp(p.dynstr + z.DynstrSize(), z.elf.OffSize())
    && p.hash == RoundUp(p.dynsym + z.DynsymSize(), 4)
    && p.dynamic == RoundUp(p.hash + z.DynsymSize(), PAGE_SIZE)
    && p.loadedSize == RoundUp(p.dynamic + z.DynamicSize(), PAGE_SIZE)
  }

  lemma LoadedCode(z: Sizes, p: Addresses)
    requires p == Predicted(z)
    ensures var d := WithAbiflags(z, WithBss(z, WithCode(z)));
            CodePlaced(z, p, d) && |d.sections| == DynstrAt(z) && RoundUp(d.virtualAddress, PAGE_SIZE) == p.dynstr
  {
    CodeAddresses(z, p);
    var b := WithCode(z);
    var c := WithBss(z, b);
    OptionalAddress(b, z.bss != 0, BSS, z.bss, p.bss);
    OptionalAddress(c, z.mips, ABIFLAGS, if z.mips then ABIFLAGS_SIZE else 0, p.abiflags);
  }

  lemma WithDynamic(z: Sizes, p: Addresses, d: Builder)
    requires Tail(z, p) && CodePlaced(z, p, d) && |d.sections| == DynstrAt(z)
    requires RoundUp(d.virtualAddress, PAGE_SIZE) == p.dynstr
    ensures var b := Added(WithTables(z, d), DYNAMIC, z.DynamicSize());
            var dynamic := RoundUp(p.hash + z.HashSize(), PAGE_SIZE);
            && CodePlaced(z, p, b) && TablesPlaced(z, p, b) && |b.sections| == DynstrAt(z) + 4
            && SectionIs(b, DynstrAt(z) + 3, DYNAMIC, dynamic, z.DynamicSize())
            && b.virtualAddress == dynamic + z.DynamicSize()
  {
    TableAddresses(z, d, p);
    OnTop(z, p, d, WithTables(z, d));
  }

  lemma OnTop(z: Sizes, p: Addresses, d: Builder, t: Builder)
    requires CodePlaced(z, p, d) && d.sections <= t.sections && |t.sections| == DynstrAt(z) + 3
    requires TablesPlaced(z, p, t) && t.virtualAddress == p.hash + z.HashSize()
    ensures var b := Added(t, DYNAMIC, z.DynamicSize());
            var dynamic := RoundUp(p.hash + z.HashSize(), PAGE_SIZE);
            && CodePlaced(z, p, b) && TablesPlaced(z, p, b) && |b.sections| == DynstrAt(z) + 4
            && SectionIs(b, DynstrAt(z) + 3, DYNAMIC, dynamic, z.DynamicSize())
            && b.virtualAddress == dynamic + z.DynamicSize()
  {
    PageSection(t, DYNAMIC, z.DynamicSize(), RoundUp(p.hash + z.HashSize(), PAGE_SIZE));
  }

  lemma HashEndPredicted(z: Sizes, p: Addresses)
    requires Tail(z, p)
    ensures RoundUp(p.hash + z.HashSize(), PAGE_SIZE) == p.dynamic <==> z.Room()
  {
    HashEnd(z, p.dynstr);
    DynamicPrediction(z, p.dynstr, p.hash);
  }

  lemma DynamicAsPredicted(z: Sizes, p: Addresses, b: Builder)
    requires Tail(z, p)
    requires SectionIs(b, DynstrAt(z) + 3, DYNAMIC, RoundUp(p.hash + z.HashSize(), PAGE_SIZE), z.DynamicSize())
    requires b.virtualAddress == RoundUp(p.hash + z.HashSize(), PAGE_SIZE) + z.DynamicSize()
    ensures SectionIs(b, DynstrAt(z) + 3, DYNAMIC, p.dynamic, z.DynamicSize()) <==> z.Room()
    ensures RoundUp(b.virtualAddress, PAGE_SIZE) == p.loadedSize <==> z.Room()
  {
    HashEndPredicted(z, p);
    LoadedSizeFollows(RoundUp(p.hash + z.HashSize(), PAGE_SIZE), p.dynamic, z.DynamicSize());
  }

  /**
   * Every address predicted before the sections exist is the one they get. That of .dynamic, and
   * with it the size the loaded file is given in the address space, is right exactly if the page
   * after the tables has room.
   */
  ghost predicate AsPredicted(z: Sizes, p: Addresses, b: Builder) {
    && CodePlaced(z, p, b) && TablesPlaced(z, p, b) && |b.sections| == DynstrAt(z) + 4
    && (SectionIs(b, DynstrAt(z) + 3, DYNAMIC, p.dynamic, z.DynamicSize()) <==> z.Room())
    && (RoundUp(b.virtualAddress, PAGE_SIZE) == p.loadedSize <==> z.Room())
  }

  lemma RestAsPredicted(z: Sizes, p: Addresses, d: Builder)
    requires Tail(z, p) && CodePlaced(z, p, d) && |d.sections| == DynstrAt(z)
    requires RoundUp(d.virtualAddress, PAGE_SIZE) == p.dynstr
    ensures AsPredicted(z, p, Added(WithTables(z, d), DYNAMIC, z.DynamicSize()))
  {
    WithDynamic(z, p, d);
    DynamicAsPredicted(z, p, Added(WithTables(z, d), DYNAMIC, z.DynamicSize()));
  }

  lemma PredictionsHold(z: Sizes)
    ensures AsPredicted(z, Predicted(z), Written(z))
  {
    LoadedCode(z, Predicted(z));
    RestAsPredicted(z, Predicted(z), WithAbiflags(z, WithBss(z, WithCode(z))));
  }

  /** No file name a file system allows (255 bytes) fills the page. */
  lemma FileNamesFit(z: Sizes)
    requires z.soname <= 255
    ensures z.Room()
  {
    assert z.SymbolCount() <= 6 && z.DynstrSize() <= 307;
    assert 0 < z.TablesEnd() && z.TablesEnd() + z.DynsymSize() <= PAGE_SIZE;
    RoundUpUnique(z.TablesEnd(), PAGE_SIZE, PAGE_SIZE);
  }

  /** A name for which .dynamic is not where it was predicted. */
  lemma LongNameExample()
    ensures var z := Sizes(Elf32, false, PAGE_SIZE, 16, 0, 3942);
            !z.Room() && !SectionIs(Written(z), 5, DYNAMIC, Predicted(z).dynamic, z.DynamicSize())
  {
    var z := Sizes(Elf32, false, PAGE_SIZE, 16, 0, 3942);
    assert z.DynstrSize() == 3972 && z.DynsymSize() == 64 && z.HashSize() == 28;
    RoundUpUnique(3972, 4, 3972);
    RoundUpUnique(4036, 4, 4036);
    assert z.TablesEnd() == 4064;
    RoundUpUnique(4064, PAGE_SIZE, PAGE_SIZE);
    PredictionsHold(z);
  }
}
