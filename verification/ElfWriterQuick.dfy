/**
 * The writer of one oat file (compiler/elf_writer_quick.cc): the order in which it drives the
 * builder, the segments that come out, and the .bss the oat writer counts on.
 */
module ElfWriterQuick {
  import opened Align
  import opened ElfSections
  import opened ElfLoads
  import opened ElfDynamic

  ghost predicate Good(headers: nat, b: Builder) {
    WellLaid(headers, b) && !b.open && Steady(headers, b)
  }

  lemma GoodAdded(headers: nat, b: Builder, spec: Spec, size: nat)
    requires Good(headers, b) && MayFollow(b, spec, size)
    ensures Good(headers, Added(b, spec, size))
  {
    AddedWellLaid(headers, b, spec, size);
    SteadyAdded(headers, b, spec, size);
  }

  lemma GoodCode(z: Sizes)
    ensures Good(z.elf.Headers(), WithCode(z))
  {
    var b := Builder(z.elf.Headers(), z.elf.Headers(), [], false);
    GoodAdded(z.elf.Headers(), b, RODATA, z.rodata);
    GoodAdded(z.elf.Headers(), Added(b, RODATA, z.rodata), TEXT, z.text);
  }

  lemma GoodOptional(z: Sizes, b: Builder)
    requires Good(z.elf.Headers(), b)
    ensures Good(z.elf.Headers(), WithBss(z, b)) && Good(z.elf.Headers(), WithAbiflags(z, b))
  {
    if z.bss != 0 {
      GoodAdded(z.elf.Headers(), b, BSS, z.bss);
    }
    if z.mips {
      GoodAdded(z.elf.Headers(), b, ABIFLAGS, ABIFLAGS_SIZE);
    }
  }

  lemma GoodTables(z: Sizes, b: Builder)
    requires Good(z.elf.Headers(), b)
    ensures Good(z.elf.Headers(), WithTables(z, b))
  {
    var b1 := Added(b, DYNSTR, z.DynstrSize());
    GoodAdded(z.elf.Headers(), b, DYNSTR, z.DynstrSize());
    var b2 := Added(b1, Dynsym(z.elf), z.DynsymSize());
    GoodAdded(z.elf.Headers(), b1, Dynsym(z.elf), z.DynsymSize());
    GoodAdded(z.elf.Headers(), b2, HASH, z.HashSize());
  }

  lemma GoodFile(z: Sizes)
    ensures Good(z.elf.Headers(), Written(z))
  {
    var h := z.elf.Headers();
    GoodCode(z);
    GoodOptional(z, WithCode(z));
    GoodOptional(z, WithBss(z, WithCode(z)));
    GoodTables(z, WithAbiflags(z, WithBss(z, WithCode(z))));
    GoodAdded(h, WithTables(z, WithAbiflags(z, WithBss(z, WithCode(z)))), DYNAMIC, z.DynamicSize());
  }

  /** The loader finds every section of the file. */
  ghost predicate LoadsAll(headers: nat, b: Builder) {
    var loads := LoadsOf(headers, LoadableIn(b), |LoadableIn(b)|);
    && Ascending(loads) && Paged(loads)
    && forall i :: 0 <= i < |b.sections| && Loadable(b.sections[i]) ==> Mapped(loads, b.sections[i])
  }

  /** Loading the file reproduces every section, whatever their sizes. */
  lemma FileLoads(z: Sizes)
    ensures LoadsAll(z.elf.Headers(), Written(z))
  {
    GoodFile(z);
    LoaderSeesSections(z.elf.Headers(), Written(z));
  }

  /** Starts the file and writes .rodata and .text, as the driver does. */
  method WriteOatSections(z: Sizes) returns (b: ElfBuilder)
    ensures fresh(b) && b.Valid() && b.base == z.elf.Headers() && b.State() == WithCode(z)
  {
    b := new ElfBuilder(z.elf.Headers());
    var rodata := b.WriteSection(RODATA, z.rodata);
    var text := b.WriteSection(TEXT, z.text);
  }

  /** ElfWriterQuick::WriteDynamicSection with the sections it announces. */
  method WriteDynamicSection(b: ElfBuilder, z: Sizes)
    requires b.Valid() && !b.open
    modifies b
    ensures b.Valid() && !b.open
    ensures b.State() == Added(WithTables(z, WithAbiflags(z, WithBss(z, old(b.State())))), DYNAMIC, z.DynamicSize())
  {
    var index;
    if z.bss != 0 {
      index := b.WriteSection(BSS, z.bss);
    }
    if z.mips {
      index := b.WriteSection(ABIFLAGS, ABIFLAGS_SIZE);
    }
    index := b.WriteSection(DYNSTR, z.DynstrSize());
    index := b.WriteSection(Dynsym(z.elf), z.DynsymSize());
    index := b.WriteSection(HASH, z.HashSize());
    index := b.WriteSection(DYNAMIC, z.DynamicSize());
  }

  lemma PlainAdded(b: Builder, spec: Spec, size: nat)
    requires spec.align > 0 && NamesPlain(b.sections) && '\0' !in spec.name
    ensures NamesPlain(Added(b, spec, size).sections)
  {
  }

  lemma PlainTables(z: Sizes, b: Builder)
    requires NamesPlain(b.sections)
    ensures NamesPlain(Added(WithTables(z, b), DYNAMIC, z.DynamicSize()).sections)
  {
    var b1 := Added(b, DYNSTR, z.DynstrSize());
    var b2 := Added(b1, Dynsym(z.elf), z.DynsymSize());
    PlainAdded(b, DYNSTR, z.DynstrSize());
    PlainAdded(b1, Dynsym(z.elf), z.DynsymSize());
    PlainAdded(b2, HASH, z.HashSize());
    PlainAdded(Added(b2, HASH, z.HashSize()), DYNAMIC, z.DynamicSize());
  }

  lemma PlainFile(z: Sizes)
    ensures NamesPlain(Written(z).sections)
  {
    var start, code := Builder(z.elf.Headers(), z.elf.Headers(), [], false), WithCode(z);
    PlainAdded(start, RODATA, z.rodata);
    PlainAdded(Added(start, RODATA, z.rodata), TEXT, z.text);
    if z.bss != 0 {
      PlainAdded(code, BSS, z.bss);
    }
    if z.mips {
      PlainAdded(WithBss(z, code), ABIFLAGS, ABIFLAGS_SIZE);
    }
    PlainTables(z, WithAbiflags(z, WithBss(z, code)));
  }

  /** Code may be executed, .bss and .dynamic may be written, and all else only read. */
  function RightsOf(name: string): SegmentFlags {
    if name == ".text" then ReadExec else if name == ".bss" || name == ".dynamic" then ReadWrite else ReadOnly
  }

  predicate RightsFit(sections: seq<Section>) {
    forall i :: 0 <= i < |sections| ==> sections[i].spec.segment == RightsOf(sections[i].spec.name)
  }

  lemma RightsAdded(b: Builder, spec: Spec, size: nat)
    requires spec.align > 0 && RightsFit(b.sections) && spec.segment == RightsOf(spec.name)
    ensures RightsFit(Added(b, spec, size).sections)
  {
  }

  lemma RightsOfSpecs(elf: ElfClass)
    ensures RODATA.segment == RightsOf(RODATA.name) && TEXT.segment == RightsOf(TEXT.name)
    ensures BSS.segment == RightsOf(BSS.name) && ABIFLAGS.segment == RightsOf(ABIFLAGS.name)
    ensures DYNSTR.segment == RightsOf(DYNSTR.name) && Dynsym(elf).segment == RightsOf(Dynsym(elf).name)
    ensures HASH.segment == RightsOf(HASH.name) && DYNAMIC.segment == RightsOf(DYNAMIC.name)
    ensures SHSTRTAB.segment == RightsOf(SHSTRTAB.name)
  {
    assert |".text"| == 5 && |".bss"| == 4 && |".dynamic"| == 8 && |".rodata"| == 7 && |".hash"| == 5;
    assert |".dynstr"| == 7 && |".dynsym"| == 7 && |".MIPS.abiflags"| == 14 && |".shstrtab"| == 9;
    assert ".hash"[1] == 'h' && ".text"[1] == 't';
  }

  lemma RightsOfTables(z: Sizes, b: Builder)
    requires RightsFit(b.sections)
    ensures RightsFit(Added(WithTables(z, b), DYNAMIC, z.DynamicSize()).sections)
  {
    RightsOfSpecs(z.elf);
    var b1 := Added(b, DYNSTR, z.DynstrSize());
    var b2 := Added(b1, Dynsym(z.elf), z.DynsymSize());
    RightsAdded(b, DYNSTR, z.DynstrSize());
    RightsAdded(b1, Dynsym(z.elf), z.DynsymSize());
    RightsAdded(b2, HASH, z.HashSize());
    RightsAdded(Added(b2, HASH, z.HashSize()), DYNAMIC, z.DynamicSize());
  }

  lemma RightsOfFile(z: Sizes)
    ensures RightsFit(Written(z).sections)
  {
    RightsOfSpecs(z.elf);
    var start, code := Builder(z.elf.Headers(), z.elf.Headers(), [], false), WithCode(z);
    RightsAdded(start, RODATA, z.rodata);
    RightsAdded(Added(start, RODATA, z.rodata), TEXT, z.text);
    if z.bss != 0 {
      RightsAdded(code, BSS, z.bss);
    }
    if z.mips {
      RightsAdded(WithBss(z, code), ABIFLAGS, ABIFLAGS_SIZE);
    }
    RightsOfTables(z, WithAbiflags(z, WithBss(z, code)));
  }

  /** The section is loaded, with the rights for what its name says it holds. */
  ghost predicate MappedWithRights(loads: seq<Load>, s: Section) {
    exists l :: l in loads && Maps(l, s) && l.flags == RightsOf(s.spec.name)
  }

  lemma MappedAsNamed(loads: seq<Load>, b: Builder)
    requires RightsFit(b.sections)
    requires forall i :: 0 <= i < |b.sections| && Loadable(b.sections[i]) ==> Mapped(loads, b.sections[i])
    ensures forall i :: 0 <= i < |b.sections| && Loadable(b.sections[i]) ==> MappedWithRights(loads, b.sections[i])
  {
    forall i | 0 <= i < |b.sections| && Loadable(b.sections[i]) ensures MappedWithRights(loads, b.sections[i]) {
      var l :| l in loads && Maps(l, b.sections[i]);
    }
  }

  lemma LoadedSize(z: Sizes)
    ensures RoundUp(Written(z).virtualAddress, PAGE_SIZE) == Predicted(z).loadedSize <==> z.Room()
  {
    PredictionsHold(z);
  }

  lemma NamesNotLoaded(headers: nat, b: Builder, size: nat)
    requires LoadsAll(headers, b)
    ensures LoadsAll(headers, Added(b, SHSTRTAB, size))
    ensures Added(b, SHSTRTAB, size).virtualAddress == b.virtualAddress
  {
    NotLoaded(b, SHSTRTAB, size);
  }

  /** The section of names changes nothing for the loader. */
  lemma NamedFileLoads(z: Sizes, size: nat)
    ensures var b := Added(Written(z), SHSTRTAB, size);
            && LoadsAll(z.elf.Headers(), b)
            && (RoundUp(b.virtualAddress, PAGE_SIZE) == Predicted(z).loadedSize <==> z.Room())
  {
    FileLoads(z);
    LoadedSize(z);
    NamesNotLoaded(z.elf.Headers(), Written(z), size);
  }

  /** A file without debug information: its sections, their names and the segments. */
  method WriteFile(z: Sizes) returns (b: ElfBuilder, loads: seq<Load>, table: string, names: seq<nat>)
    ensures fresh(b) && b.Valid() && b.State() == Added(Written(z), SHSTRTAB, |table|)
    ensures Ascending(loads) && Paged(loads)
    ensures forall i :: 0 <= i < |b.sections| && Loadable(b.sections[i]) ==> MappedWithRights(loads, b.sections[i])
    ensures RoundUp(b.virtualAddress, PAGE_SIZE) == Predicted(z).loadedSize <==> z.Room()
    ensures Named(b.sections, table, names)
  {
    b := WriteOatSections(z);
    WriteDynamicSection(b, z);
    PlainFile(z);
    table, names := b.WriteSectionNames();
    NamedFileLoads(z, |table|);
    loads := MakeLoads(z.elf.Headers(), b.sections);
    RightsOfFile(z);
    RightsOfSpecs(z.elf);
    RightsAdded(Written(z), SHSTRTAB, |table|);
    MappedAsNamed(loads, b.State());
  }

  /** The size of the first k dex cache arrays. */
  function ArraysSize(layouts: seq<nat>, k: nat): nat
    requires k <= |layouts|
  {
    if k == 0 then 0 else ArraysSize(layouts, k - 1) + layouts[k - 1]
  }

  /** Where the oat writer puts the dex cache arrays, relative to the oat data. */
  method AllocateBss(oatSize: nat, layouts: seq<nat>) returns (offsets: seq<nat>, bssSize: nat)
    ensures |offsets| == |layouts| && bssSize == ArraysSize(layouts, |layouts|)
    ensures forall i :: 0 <= i < |layouts| ==> offsets[i] == RoundUp(oatSize, PAGE_SIZE) + ArraysSize(layouts, i)
    ensures forall i, j :: 0 <= i < j < |layouts| ==> offsets[i] + layouts[i] <= offsets[j]
  {
    var bssStart := RoundUp(oatSize, PAGE_SIZE);
    offsets, bssSize := [], 0;
    var i := 0;
    while i < |layouts|
      invariant 0 <= i == |offsets| <= |layouts| && bssSize == ArraysSize(layouts, i)
      invariant forall j :: 0 <= j < i ==> offsets[j] == bssStart + ArraysSize(layouts, j)
    {
      offsets := offsets + [bssStart + bssSize];
      bssSize := bssSize + layouts[i];
      i := i + 1;
    }
    forall i, j | 0 <= i < j < |layouts| ensures offsets[i] + layouts[i] <= offsets[j] {
      ArraysAscend(layouts, i, j);
    }
  }

  lemma {:induction false} ArraysAscend(layouts: seq<nat>, i: nat, j: nat)
    requires i < j <= |layouts|
    ensures ArraysSize(layouts, i) + layouts[i] <= ArraysSize(layouts, j)
  {
    if i + 1 < j {
      ArraysAscend(layouts, i, j - 1);
    }
  }

  /** The start of .bss the oat writer computes is the one the builder gives it. */
  lemma BssAgrees(z: Sizes)
    requires z.rodata % PAGE_SIZE == 0
    ensures Predicted(z).rodata + RoundUp(z.rodata + z.text, PAGE_SIZE) == Predicted(z).bss
  {
    var p := Predicted(z);
    AddMultiple(p.rodata, z.rodata, PAGE_SIZE);
    RoundUpUnique(p.rodata + z.rodata, PAGE_SIZE, p.rodata + z.rodata);
    RoundUpShift(z.rodata + z.text, p.rodata, PAGE_SIZE);
  }

  /** The array lies in .bss, from `start` counted from the oat data. */
  predicate InBss(b: Builder, start: nat, size: nat) {
    && |b.sections| > 2 && b.sections[2].spec == BSS
    && b.sections[2].addr <= b.sections[0].addr + start
    && b.sections[0].addr + start + size <= b.sections[2].addr + b.sections[2].size
  }

  lemma ArraysPlaced(z: Sizes, p: Addresses, b: Builder, layouts: seq<nat>, i: nat, start: nat)
    requires CodePlaced(z, p, b) && z.bss == ArraysSize(layouts, |layouts|) && i < |layouts| && z.bss > 0
    requires p.rodata + start == p.bss
    ensures InBss(b, start + ArraysSize(layouts, i), layouts[i])
  {
    ArraysAscend(layouts, i, |layouts|);
  }

  lemma BssPlaced(z: Sizes)
    requires z.rodata % PAGE_SIZE == 0
    ensures CodePlaced(z, Predicted(z), Written(z))
    ensures Predicted(z).rodata + RoundUp(z.rodata + z.text, PAGE_SIZE) == Predicted(z).bss
  {
    BssAgrees(z);
    PredictionsHold(z);
  }

  /** Every dex cache array the oat writer hands out lies in the .bss section of the written file. */
  lemma ArraysInBss(z: Sizes, layouts: seq<nat>, i: nat)
    requires z.rodata % PAGE_SIZE == 0 && z.bss == ArraysSize(layouts, |layouts|)
    requires i < |layouts| && z.bss > 0
    ensures InBss(Written(z), RoundUp(z.rodata + z.text, PAGE_SIZE) + ArraysSize(layouts, i), layouts[i])
  {
    BssPlaced(z);
    ArraysPlaced(z, Predicted(z), Written(z), layouts, i, RoundUp(z.rodata + z.text, PAGE_SIZE));
  }
}
