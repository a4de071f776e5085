/**
 * The section state machine of the ELF writer (compiler/elf_builder.h): a file position and a
 * virtual address advance together while sections are started, written and ended.
 */
module ElfSections {
  import opened Align

  /** sh_flags: 0, SHF_ALLOC, SHF_ALLOC | SHF_EXECINSTR. */
  datatype SectionFlags = NotAllocated | Allocated | AllocatedExec {
    predicate Alloc() {
      !NotAllocated?
    }
  }

  /** p_flags of the segment for a section. */
  datatype SegmentFlags = ReadOnly | ReadExec | ReadWrite

  datatype Spec = Spec(name: string, nobits: bool, flags: SectionFlags, align: nat, segment: SegmentFlags)

  /** A section that was started; its size is 0 until it is ended. */
  datatype Section = Section(spec: Spec, align: nat, offset: nat, addr: nat, size: nat) {
    predicate InFile() {
      !spec.nobits
    }

    predicate InMemory() {
      spec.flags.Alloc()
    }
  }

  datatype Builder = Builder(pos: nat, virtualAddress: nat, sections: seq<Section>, open: bool)

  /** Page-align if the kind of allocation changes. */
  function EffectiveAlign(b: Builder, spec: Spec): nat {
    if b.sections != [] && spec.flags != b.sections[|b.sections| - 1].spec.flags then PAGE_SIZE else spec.align
  }

  function Started(b: Builder, spec: Spec): Builder
    requires spec.align > 0
  {
    var align := EffectiveAlign(b, spec);
    var offset := if spec.nobits then 0 else RoundUp(b.pos, align);
    var addr := if spec.flags.Alloc() then RoundUp(b.virtualAddress, align) else 0;
    Builder(if spec.nobits then b.pos else offset,
            if spec.flags.Alloc() then addr else b.virtualAddress,
            b.sections + [Section(spec, align, offset, addr, 0)], true)
  }

  function Wrote(b: Builder, count: nat): Builder {
    b.(pos := b.pos + count)
  }

  /** The size of a NOBITS section is given, any other one is what was written. */
  function Ended(b: Builder, nobitsSize: nat): Builder
    requires b.sections != []
  {
    var last := b.sections[|b.sections| - 1];
    var size := if last.spec.nobits then nobitsSize else if last.offset <= b.pos then b.pos - last.offset else 0;
    Builder(b.pos, if last.InMemory() then b.virtualAddress + size else b.virtualAddress,
            b.sections[|b.sections| - 1 := last.(size := size)], false)
  }

  /** Aligned, behind the headers (which end at `base`) and inside what has been written. */
  ghost predicate Placed(base: nat, b: Builder, s: Section) {
    && s.align > 0
    && (s.InFile() ==> s.offset % s.align == 0 && base <= s.offset && s.offset + s.size <= b.pos)
    && (s.InMemory() ==> s.addr % s.align == 0 && base <= s.addr && s.addr + s.size <= b.virtualAddress)
  }

  /** s ends before t starts, in the file and in memory. */
  predicate Precedes(s: Section, t: Section) {
    && (s.InFile() && t.InFile() ==> s.offset + s.size <= t.offset)
    && (s.InMemory() && t.InMemory() ==> s.addr + s.size <= t.addr)
  }

  ghost predicate WellLaid(base: nat, b: Builder) {
    && base <= b.pos && base <= b.virtualAddress
    && (forall i :: 0 <= i < |b.sections| ==> Placed(base, b, b.sections[i]))
    && (forall i, j :: 0 <= i < j < |b.sections| ==> Precedes(b.sections[i], b.sections[j]))
    && (b.open ==> b.sections != [] && b.sections[|b.sections| - 1].size == 0)
  }

  lemma StartedWellLaid(base: nat, b: Builder, spec: Spec)
    requires WellLaid(base, b) && !b.open && spec.align > 0
    ensures WellLaid(base, Started(b, spec))
  {
    var t := Started(b, spec);
    var n := |b.sections|;
    forall i | 0 <= i < n ensures Placed(base, t, t.sections[i]) && Precedes(t.sections[i], t.sections[n]) {
      assert t.sections[i] == b.sections[i] && Placed(base, b, b.sections[i]);
    }
    forall i, j | 0 <= i < j < n ensures Precedes(t.sections[i], t.sections[j]) {
      assert Precedes(b.sections[i], b.sections[j]);
    }
  }

  lemma WroteWellLaid(base: nat, b: Builder, count: nat)
    requires WellLaid(base, b)
    ensures WellLaid(base, Wrote(b, count))
  {
    forall i | 0 <= i < |b.sections| ensures Placed(base, Wrote(b, count), b.sections[i]) {
      assert Placed(base, b, b.sections[i]);
    }
  }

  lemma EndedWellLaid(base: nat, b: Builder, nobitsSize: nat)
    requires WellLaid(base, b) && b.open
    ensures WellLaid(base, Ended(b, nobitsSize))
  {
    var t, n := Ended(b, nobitsSize), |b.sections| - 1;
    forall i | 0 <= i <= n ensures Placed(base, t, t.sections[i]) {
      assert Placed(base, b, b.sections[i]);
    }
    forall i, j | 0 <= i < j <= n ensures Precedes(t.sections[i], t.sections[j]) {
      assert Precedes(b.sections[i], b.sections[j]);
    }
  }

  /** The entry for a whole section of the given size. */
  function NewSection(b: Builder, spec: Spec, size: nat): Section
    requires spec.align > 0
  {
    var align := EffectiveAlign(b, spec);
    Section(spec, align, if spec.nobits then 0 else RoundUp(b.pos, align),
            if spec.flags.Alloc() then RoundUp(b.virtualAddress, align) else 0, size)
  }

  /** A whole section of the given size; a NOBITS section writes nothing. */
  function Added(b: Builder, spec: Spec, size: nat): Builder
    requires spec.align > 0
  {
    var s := NewSection(b, spec, size);
    Builder(if spec.nobits then b.pos else s.offset + size,
            if spec.flags.Alloc() then s.addr + size else b.virtualAddress,
            b.sections + [s], false)
  }

  lemma AddedInSteps(b: Builder, spec: Spec, size: nat)
    requires spec.align > 0
    ensures Added(b, spec, size) == Ended(Wrote(Started(b, spec), if spec.nobits then 0 else size), size)
  {
  }

  lemma AddedWellLaid(base: nat, b: Builder, spec: Spec, size: nat)
    requires WellLaid(base, b) && !b.open && spec.align > 0
    ensures WellLaid(base, Added(b, spec, size)) && !Added(b, spec, size).open
  {
    AddedInSteps(b, spec, size);
    StartedWellLaid(base, b, spec);
    WroteWellLaid(base, Started(b, spec), if spec.nobits then 0 else size);
    EndedWellLaid(base, Wrote(Started(b, spec), if spec.nobits then 0 else size), size);
  }

  /** The section with the names of all sections. */
  const SHSTRTAB := Spec(".shstrtab", false, NotAllocated, 1, ReadOnly)

  ghost predicate NamesPlain(sections: seq<Section>) {
    forall i :: 0 <= i < |sections| ==> '\0' !in sections[i].spec.name
  }

  /** sh_name of every section leads to its name. */
  ghost predicate Named(sections: seq<Section>, table: string, offsets: seq<nat>) {
    && |offsets| == |sections|
    && forall i :: 0 <= i < |sections| ==> offsets[i] < |table| && NameAt(table, offsets[i]) == sections[i].spec.name
  }

  /** The builder as the source has it: the stream position and the list of sections change in place. */
  class ElfBuilder {
    var pos: nat
    var virtualAddress: nat
    var sections: seq<Section>
    var open: bool
    const base: nat

    function State(): Builder
      reads this
    {
      Builder(pos, virtualAddress, sections, open)
    }

    ghost predicate Valid()
      reads this
    {
      WellLaid(base, State())
    }

    /** Leaves room for the ELF header and the program headers. */
    constructor (headers: nat)
      ensures Valid() && base == headers && State() == Builder(headers, headers, [], false)
    {
      pos, virtualAddress, sections, open, base := headers, headers, [], false, headers;
    }

    method AlignFileOffset(alignment: nat) returns (offset: nat)
      requires alignment > 0
      modifies `pos
      ensures offset == pos == RoundUp(old(pos), alignment)
    {
      pos := RoundUp(pos, alignment);
      offset := pos;
    }

    method AlignVirtualAddress(alignment: nat) returns (addr: nat)
      requires alignment > 0
      modifies `virtualAddress
      ensures addr == virtualAddress == RoundUp(old(virtualAddress), alignment)
    {
      virtualAddress := RoundUp(virtualAddress, alignment);
      addr := virtualAddress;
    }

    /** The index of the section in the section header table; entry 0 is the null section. */
    method Start(spec: Spec) returns (index: nat)
      requires Valid() && !open && spec.align > 0
      modifies this
      ensures Valid() && State() == Started(old(State()), spec)
      ensures index == |sections| == |old(sections)| + 1
    {
      StartedWellLaid(base, State(), spec);
      index := |sections| + 1;
      var align := spec.align;
      if sections != [] && spec.flags != sections[|sections| - 1].spec.flags {
        align := PAGE_SIZE;
      }
      var offset, addr := 0, 0;
      if !spec.nobits {
        offset := AlignFileOffset(align);
      }
      if spec.flags.Alloc() {
        addr := AlignVirtualAddress(align);
      }
      sections := sections + [Section(spec, align, offset, addr, 0)];
      open := true;
    }

    method WriteFully(count: nat)
      requires Valid() && open
      modifies `pos
      ensures Valid() && State() == Wrote(old(State()), count)
    {
      WroteWellLaid(base, State(), count);
      pos := pos + count;
    }

    method End(nobitsSize: nat)
      requires Valid() && open
      modifies this
      ensures Valid() && State() == Ended(old(State()), nobitsSize)
    {
      EndedWellLaid(base, State(), nobitsSize);
      var n := |sections| - 1;
      var size := nobitsSize;
      if !sections[n].spec.nobits {
        assert Placed(base, State(), sections[n]);
        size := pos - sections[n].offset;
      }
      if sections[n].InMemory() {
        virtualAddress := virtualAddress + size;
      }
      sections := sections[n := sections[n].(size := size)];
      open := false;
    }

    method WriteSection(spec: Spec, size: nat) returns (index: nat)
      requires Valid() && !open && spec.align > 0
      modifies this
      ensures Valid() && State() == Added(old(State()), spec, size) && index == |sections| == |old(sections)| + 1
    {
      AddedInSteps(State(), spec, size);
      index := Start(spec);
      if !spec.nobits {
        WriteFully(size);
      }
      End(size);
    }

    /** The last section: the names of all sections, its own included. */
    method WriteSectionNames() returns (table: string, offsets: seq<nat>)
      requires Valid() && !open && NamesPlain(sections)
      modifies this
      ensures Valid() && State() == Added(old(State()), SHSTRTAB, |table|)
      ensures Named(sections, table, offsets)
    {
      ghost var before := State();
      var index := Start(SHSTRTAB);
      var ss := sections;
      assert '\0' !in SHSTRTAB.name;
      table, offsets := WriteNames(seq(|ss|, i requires 0 <= i < |ss| => ss[i].spec.name));
      WriteFully(|table|);
      End(0);
      AddedInSteps(before, SHSTRTAB, |table|);
    }
  }

  /** What a reader of the table finds at an offset. */
  function NameAt(table: string, at: nat): string
    requires at <= |table|
    decreases |table| - at
  {
    if at == |table| || table[at] == '\0' then [] else [table[at]] + NameAt(table, at + 1)
  }

  lemma {:induction false} NameAtReads(before: string, name: string, after: string)
    requires '\0' !in name
    ensures NameAt(before + name + ['\0'] + after, |before|) == name
    decreases |name|
  {
    var table := before + name + ['\0'] + after;
    if name != [] {
      assert table == (before + [name[0]]) + name[1..] + ['\0'] + after;
      NameAtReads(before + [name[0]], name[1..], after);
      assert name == [name[0]] + name[1..];
    }
  }

  /** Writes the section names and notes where each of them starts (sh_name). */
  method WriteNames(names: seq<string>) returns (table: string, offsets: seq<nat>)
    requires forall i :: 0 <= i < |names| ==> '\0' !in names[i]
    ensures |offsets| == |names|
    ensures forall i :: 0 <= i < |names| ==> 0 < offsets[i] < |table| && NameAt(table, offsets[i]) == names[i]
    ensures |table| > 0 && NameAt(table, 0) == ""
  {
    table, offsets := ['\0'], [];
    var i := 0;
    while i < |names|
      invariant 0 <= i == |offsets| <= |names|
      invariant |table| > 0 && table[0] == '\0'
      invariant forall j :: 0 <= j < i ==> 0 < offsets[j] && Holds(table, offsets[j], names[j])
    {
      var before := table;
      offsets := offsets + [|table|];
      table := table + names[i] + ['\0'];
      forall j | 0 <= j < i ensures Holds(table, offsets[j], names[j]) {
        HoldsOn(before, offsets[j], names[j], names[i] + ['\0']);
        assert table == before + (names[i] + ['\0']);
      }
      assert table[|before|..|before| + |names[i]|] == names[i];
      i := i + 1;
    }
    forall j | 0 <= j < |names| ensures NameAt(table, offsets[j]) == names[j] {
      HoldsReads(table, offsets[j], names[j]);
    }
  }

  ghost predicate Holds(table: string, at: nat, name: string) {
    at + |name| < |table| && table[at..at + |name|] == name && table[at + |name|] == '\0'
  }

  lemma HoldsOn(table: string, at: nat, name: string, more: string)
    requires Holds(table, at, name)
    ensures Holds(table + more, at, name)
  {
    assert (table + more)[at..at + |name|] == table[at..at + |name|];
  }

  lemma HoldsReads(table: string, at: nat, name: string)
    requires Holds(table, at, name) && '\0' !in name
    ensures NameAt(table, at) == name
  {
    var end := at + |name|;
    assert table == table[..at] + name + ['\0'] + table[end + 1..];
    NameAtReads(table[..at], name, table[end + 1..]);
  }
}
