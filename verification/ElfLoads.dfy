/**
 * Program headers (compiler/elf_builder.h): the loader sees only the PT_LOAD segments, which are
 * made from the section table by merging neighbours. Chapter 5 of the System V gABI.
 */
module ElfLoads {
  import opened Align
  import opened ElfSections

  /** A PT_LOAD segment. */
  datatype Load = Load(flags: SegmentFlags, offset: nat, vaddr: nat, filesz: int, memsz: int) {
    /** Where the file's byte at `offset` ends up, relative to its offset. */
    function Shift(): int {
      vaddr - offset
    }
  }

  function Shift(s: Section): int {
    s.addr - s.offset
  }

  /** A section that has to be loaded. */
  predicate Loadable(s: Section) {
    s.InMemory() && s.size != 0
  }

  function HeaderLoad(headers: nat): Load {
    Load(ReadOnly, 0, 0, headers, headers)
  }

  function OwnLoad(s: Section): Load {
    Load(s.spec.segment, s.offset, s.addr, if s.spec.nobits then 0 else s.size, s.size)
  }

  predicate Merges(prev: Load, load: Load) {
    prev.flags == load.flags && prev.filesz == prev.memsz && load.filesz == load.memsz
  }

  function AddSection(loads: seq<Load>, s: Section): (r: seq<Load>)
    requires loads != []
    ensures r != []
  {
    var prev, load := loads[|loads| - 1], OwnLoad(s);
    if Merges(prev, load) then
      var size := s.offset + s.size - prev.offset;
      loads[|loads| - 1 := prev.(filesz := size, memsz := size)]
    else loads + [load]
  }

  /** The loads for the ELF and program headers and the first k of the sections to be loaded. */
  function LoadsOf(headers: nat, ss: seq<Section>, k: nat): (r: seq<Load>)
    requires k <= |ss|
    ensures r != []
  {
    if k == 0 then [HeaderLoad(headers)] else AddSection(LoadsOf(headers, ss, k - 1), ss[k - 1])
  }

  /** The sections that are loaded, among the first k. */
  function LoadableOf(sections: seq<Section>, k: nat): seq<Section>
    requires k <= |sections|
  {
    if k == 0 then []
    else if Loadable(sections[k - 1]) then LoadableOf(sections, k - 1) + [sections[k - 1]]
    else LoadableOf(sections, k - 1)
  }

  lemma {:induction false} LoadableInOrder(base: nat, b: Builder, k: nat, later: nat)
    requires WellLaid(base, b) && k <= later <= |b.sections|
    ensures InOrder(base, LoadableOf(b.sections, k))
    ensures later < |b.sections| ==>
              forall i :: 0 <= i < |LoadableOf(b.sections, k)| ==>
                            Precedes(LoadableOf(b.sections, k)[i], b.sections[later])
  {
    if k > 0 {
      LoadableInOrder(base, b, k - 1, k - 1);
      LoadableInOrder(base, b, k - 1, later);
      assert Placed(base, b, b.sections[k - 1]);
    }
  }

  /** The first loop of MakeProgramHeaders. */
  method MakeLoads(headers: nat, sections: seq<Section>) returns (loads: seq<Load>)
    ensures var ss := LoadableOf(sections, |sections|); loads == LoadsOf(headers, ss, |ss|)
  {
    loads := [HeaderLoad(headers)];
    var i := 0;
    while i < |sections|
      invariant 0 <= i <= |sections|
      invariant var ss := LoadableOf(sections, i); loads == LoadsOf(headers, ss, |ss|)
    {
      if Loadable(sections[i]) {
        ghost var ss := LoadableOf(sections, i);
        LoadsOfPrefix(headers, ss, ss + [sections[i]], |ss|);
        var prev, load := loads[|loads| - 1], OwnLoad(sections[i]);
        if Merges(prev, load) {
          var size := sections[i].offset + sections[i].size - prev.offset;
          loads := loads[|loads| - 1 := prev.(filesz := size, memsz := size)];
        } else {
          loads := loads + [load];
        }
      }
      i := i + 1;
    }
  }

  lemma {:induction false} LoadsOfPrefix(headers: nat, a: seq<Section>, b: seq<Section>, k: nat)
    requires a <= b && k <= |a|
    ensures LoadsOf(headers, a, k) == LoadsOf(headers, b, k)
  {
    if k > 0 {
      LoadsOfPrefix(headers, a, b, k - 1);
    }
  }

  /** Sections to be loaded in the order in which a builder leaves them, behind the headers. */
  ghost predicate InOrder(headers: nat, ss: seq<Section>) {
    && (forall i :: 0 <= i < |ss| ==>
          Loadable(ss[i]) && headers <= ss[i].addr && (ss[i].InFile() ==> headers <= ss[i].offset))
    && (forall i, j :: 0 <= i < j < |ss| ==> Precedes(ss[i], ss[j]))
  }

  /**
   * Section k can be merged with what comes before it: if it would be merged with its
   * predecessor (or with the headers), both have the same distance between file and memory.
   */
  predicate Mergeable(ss: seq<Section>, k: nat)
    requires k < |ss|
  {
    if k == 0 then ss[0].spec.segment.ReadOnly? && ss[0].InFile() ==> Shift(ss[0]) == 0
    else ss[k - 1].spec.segment == ss[k].spec.segment && ss[k - 1].InFile() && ss[k].InFile() ==>
           Shift(ss[k - 1]) == Shift(ss[k])
  }

  /** The load maps the section: to its address, from its place in the file or to zeros. */
  predicate Maps(l: Load, s: Section) {
    && l.vaddr <= s.addr && s.addr + s.size <= l.vaddr + l.memsz && l.flags == s.spec.segment
    && if s.InFile() then l.vaddr + (s.offset - l.offset) == s.addr && s.offset + s.size <= l.offset + l.filesz
       else l == OwnLoad(s)
  }

  ghost predicate Ascending(loads: seq<Load>) {
    forall i, j :: 0 <= i < j < |loads| ==> loads[i].vaddr + loads[i].memsz <= loads[j].vaddr
  }

  /** The last load ends with the last section and has its distance. */
  ghost predicate LastIs(l: Load, s: Section) {
    && l.flags == s.spec.segment && l.vaddr <= s.addr && l.vaddr + l.memsz == s.addr + s.size
    && if s.InFile() then l.filesz == l.memsz && l.Shift() == Shift(s) else l == OwnLoad(s)
  }

  lemma {:induction false} LastLoad(headers: nat, ss: seq<Section>, k: nat)
    requires 0 < k <= |ss| && InOrder(headers, ss)
    requires forall i :: 0 <= i < k ==> Mergeable(ss, i)
    ensures var loads := LoadsOf(headers, ss, k); LastIs(loads[|loads| - 1], ss[k - 1])
  {
    assert Mergeable(ss, k - 1);
    if k > 1 {
      LastLoad(headers, ss, k - 1);
      assert Precedes(ss[k - 2], ss[k - 1]);
    }
  }

  ghost predicate EndBefore(loads: seq<Load>, addr: nat) {
    forall i :: 0 <= i < |loads| ==> loads[i].vaddr + loads[i].memsz <= addr
  }

  lemma AddSectionAscends(loads: seq<Load>, s: Section)
    requires loads != [] && Ascending(loads) && EndBefore(loads, s.addr)
    ensures Ascending(AddSection(loads, s))
  {
    var r := AddSection(loads, s);
    forall i, j | 0 <= i < j < |r| ensures r[i].vaddr + r[i].memsz <= r[j].vaddr {
      assert r[i] == loads[i];
      if j < |loads| {
        assert r[j].vaddr == loads[j].vaddr;
      }
    }
  }

  lemma AscendingEndsBefore(loads: seq<Load>, addr: nat)
    requires loads != [] && Ascending(loads)
    requires loads[|loads| - 1].memsz >= 0 && loads[|loads| - 1].vaddr + loads[|loads| - 1].memsz <= addr
    ensures EndBefore(loads, addr)
  {
  }

  /** Segments are ascending and disjoint. */
  lemma {:induction false} LoadsAscend(headers: nat, ss: seq<Section>, k: nat)
    requires k <= |ss| && InOrder(headers, ss)
    requires forall i :: 0 <= i < k ==> Mergeable(ss, i)
    ensures Ascending(LoadsOf(headers, ss, k))
    ensures k < |ss| ==> EndBefore(LoadsOf(headers, ss, k), ss[k].addr)
  {
    if k > 0 {
      LoadsAscend(headers, ss, k - 1);
      AddSectionAscends(LoadsOf(headers, ss, k - 1), ss[k - 1]);
      LastLoad(headers, ss, k);
      if k < |ss| {
        assert Precedes(ss[k - 1], ss[k]);
        AscendingEndsBefore(LoadsOf(headers, ss, k), ss[k].addr);
      }
    }
  }

  /** Section i is mapped by the load at the returned position. */
  lemma {:induction false} SectionMapped(headers: nat, ss: seq<Section>, k: nat, i: nat) returns (at: nat)
    requires i < k <= |ss| && InOrder(headers, ss)
    requires forall j :: 0 <= j < k ==> Mergeable(ss, j)
    ensures at < |LoadsOf(headers, ss, k)| && Maps(LoadsOf(headers, ss, k)[at], ss[i])
  {
    LastLoad(headers, ss, k);
    if i == k - 1 {
      at := |LoadsOf(headers, ss, k)| - 1;
    } else {
      at := SectionMapped(headers, ss, k - 1, i);
      LastLoad(headers, ss, k - 1);
      assert Mergeable(ss, k - 1) && Precedes(ss[k - 2], ss[k - 1]);
    }
  }

  /** A load keeps its start, and stops growing when it is no longer the last one. */
  lemma {:induction false} LoadKept(headers: nat, ss: seq<Section>, k: nat, n: nat, i: nat)
    requires k <= n <= |ss| && i < |LoadsOf(headers, ss, k)|
    ensures i < |LoadsOf(headers, ss, k)| <= |LoadsOf(headers, ss, n)|
    ensures var a, b := LoadsOf(headers, ss, k), LoadsOf(headers, ss, n);
            a[i].vaddr == b[i].vaddr && a[i].offset == b[i].offset && (i < |a| - 1 ==> a[i] == b[i])
  {
    if k < n {
      LoadKept(headers, ss, k, n - 1, i);
    }
  }

  /** A load that appears later starts with a later section. */
  lemma {:induction false} LaterLoad(headers: nat, ss: seq<Section>, k: nat, n: nat, i: nat) returns (j: nat)
    requires k <= n <= |ss| && |LoadsOf(headers, ss, k)| <= i < |LoadsOf(headers, ss, n)|
    ensures k <= j < n && LoadsOf(headers, ss, n)[i].vaddr == ss[j].addr
  {
    if k == n {
      assert false;
    } else if i < |LoadsOf(headers, ss, n - 1)| {
      j := LaterLoad(headers, ss, k, n - 1, i);
    } else {
      j := n - 1;
    }
  }

  /** The first section that is merged at the wrong distance is mapped by no load at all. */
  lemma NotMapped(headers: nat, ss: seq<Section>, k: nat, at: nat)
    requires k < |ss| && InOrder(headers, ss) && !Mergeable(ss, k)
    requires forall j :: 0 <= j < k ==> Mergeable(ss, j)
    requires at < |LoadsOf(headers, ss, |ss|)|
    ensures !Maps(LoadsOf(headers, ss, |ss|)[at], ss[k])
  {
    var n := |LoadsOf(headers, ss, k)|;
    if k > 0 {
      LastLoad(headers, ss, k);
    }
    MergedInto(headers, ss, k);
    if at < n {
      LoadKept(headers, ss, k, |ss|, at);
      LoadsAscend(headers, ss, k);
    } else {
      var j := LaterLoad(headers, ss, k + 1, |ss|, at);
      assert Precedes(ss[k], ss[j]);
    }
  }

  lemma MergedInto(headers: nat, ss: seq<Section>, k: nat)
    requires k < |ss| && InOrder(headers, ss) && !Mergeable(ss, k)
    requires forall j :: 0 <= j < k ==> Mergeable(ss, j)
    ensures |LoadsOf(headers, ss, k + 1)| == |LoadsOf(headers, ss, k)|
  {
    if k > 0 {
      LastLoad(headers, ss, k);
    }
  }

  ghost predicate Mapped(loads: seq<Load>, s: Section) {
    exists l :: l in loads && Maps(l, s)
  }

  /**
   * The loader puts every section where its header says, from where its bytes are in the file,
   * exactly if no two neighbours with the same rights have different distances.
   */
  lemma LoadsFaithful(headers: nat, ss: seq<Section>)
    requires InOrder(headers, ss)
    ensures (forall k :: 0 <= k < |ss| ==> Mergeable(ss, k)) <==>
            (forall k :: 0 <= k < |ss| ==> Mapped(LoadsOf(headers, ss, |ss|), ss[k]))
  {
    if forall k :: 0 <= k < |ss| ==> Mergeable(ss, k) {
      forall k | 0 <= k < |ss| ensures Mapped(LoadsOf(headers, ss, |ss|), ss[k]) {
        var at := SectionMapped(headers, ss, |ss|, k);
        assert LoadsOf(headers, ss, |ss|)[at] in LoadsOf(headers, ss, |ss|);
      }
    } else {
      var k := FirstUnmergeable(ss, |ss|);
      forall at | 0 <= at < |LoadsOf(headers, ss, |ss|)| ensures !Maps(LoadsOf(headers, ss, |ss|)[at], ss[k]) {
        NotMapped(headers, ss, k, at);
      }
      assert !Mapped(LoadsOf(headers, ss, |ss|), ss[k]);
    }
  }

  lemma {:induction false} FirstUnmergeable(ss: seq<Section>, n: nat) returns (k: nat)
    requires n <= |ss| && exists i :: 0 <= i < n && !Mergeable(ss, i)
    ensures k < n && !Mergeable(ss, k) && forall j :: 0 <= j < k ==> Mergeable(ss, j)
  {
    if exists i :: 0 <= i < n - 1 && !Mergeable(ss, i) {
      k := FirstUnmergeable(ss, n - 1);
    } else {
      k := n - 1;
    }
  }

  /** Every segment starts on a page, in the file and in memory. */
  ghost predicate Paged(loads: seq<Load>) {
    forall i :: 0 <= i < |loads| ==> loads[i].offset % PAGE_SIZE == 0 && loads[i].vaddr % PAGE_SIZE == 0
  }

  function LoadableIn(b: Builder): seq<Section> {
    LoadableOf(b.sections, |b.sections|)
  }

  /**
   * What holds between the sections of a file: as long as no NOBITS section intervenes, the
   * distance between the two cursors is a whole number of pages and the same for all sections.
   */
  ghost predicate Steady(headers: nat, b: Builder) {
    var ss := LoadableIn(b);
    && b.pos <= b.virtualAddress
    && (forall k :: 0 <= k < |ss| ==> Mergeable(ss, k))
    && Paged(LoadsOf(headers, ss, |ss|))
    && (b.sections == [] || b.sections[|b.sections| - 1].InFile() || Loadable(b.sections[|b.sections| - 1]))
    && (b.sections == [] || b.sections[|b.sections| - 1].InFile() ==>
          && (b.virtualAddress - b.pos) % PAGE_SIZE == 0
          && (if ss == [] then b.virtualAddress == b.pos
              else ss[|ss| - 1].InFile() ==> Shift(ss[|ss| - 1]) == b.virtualAddress - b.pos))
  }

  /**
   * The sections a loaded file may go on with: page aligned, or with an alignment that divides the
   * page size if they go into the same segment as the non-empty section before.
   */
  predicate MayFollow(b: Builder, spec: Spec, size: nat) {
    && spec.align > 0 && PAGE_SIZE % spec.align == 0 && spec.flags.Alloc()
    && (spec.nobits ==> size > 0)
    && (|| EffectiveAlign(b, spec) == PAGE_SIZE
        || (b.sections != [] && !spec.nobits &&
            var last := b.sections[|b.sections| - 1];
            Loadable(last) && last.InFile() && last.spec.segment == spec.segment))
  }

  lemma {:induction false} LoadablePrefix(a: seq<Section>, b: seq<Section>, k: nat)
    requires a <= b && k <= |a|
    ensures LoadableOf(a, k) == LoadableOf(b, k)
  {
    if k > 0 {
      LoadablePrefix(a, b, k - 1);
    }
  }

  lemma LoadableAdded(b: Builder, spec: Spec, size: nat)
    requires spec.align > 0
    ensures var t := Added(b, spec, size);
            t.sections != [] &&
            var s := t.sections[|t.sections| - 1];
            LoadableIn(t) == if Loadable(s) then LoadableIn(b) + [s] else LoadableIn(b)
  {
    LoadablePrefix(b.sections, Added(b, spec, size).sections, |b.sections|);
  }

  lemma MergeableAdded(ss: seq<Section>, s: Section)
    requires forall k :: 0 <= k < |ss| ==> Mergeable(ss, k)
    requires Mergeable(ss + [s], |ss|)
    ensures forall k :: 0 <= k <= |ss| ==> Mergeable(ss + [s], k)
  {
    forall k | 0 <= k < |ss| ensures Mergeable(ss + [s], k) {
      assert Mergeable(ss, k);
    }
  }

  lemma PagedAdded(headers: nat, ss: seq<Section>, s: Section)
    requires Paged(LoadsOf(headers, ss, |ss|))
    requires (s.offset % PAGE_SIZE == 0 && s.addr % PAGE_SIZE == 0)
             || Merges(LoadsOf(headers, ss, |ss|)[|LoadsOf(headers, ss, |ss|)| - 1], OwnLoad(s))
    ensures Paged(LoadsOf(headers, ss + [s], |ss| + 1))
  {
    LoadsOfPrefix(headers, ss, ss + [s], |ss|);
  }

  /** Cursors that are whole pages apart stay so when both are rounded up. */
  lemma CursorsShift(pos: nat, address: nat, align: nat)
    requires align > 0 && PAGE_SIZE % align == 0 && pos <= address && (address - pos) % PAGE_SIZE == 0
    ensures RoundUp(address, align) - RoundUp(pos, align) == address - pos
  {
    DividesTrans(address - pos, align, PAGE_SIZE);
    RoundUpShift(pos, address - pos, align);
  }

  lemma CursorsPaged(pos: nat, address: nat)
    requires pos <= address
    ensures RoundUp(pos, PAGE_SIZE) <= RoundUp(address, PAGE_SIZE)
    ensures (RoundUp(address, PAGE_SIZE) - RoundUp(pos, PAGE_SIZE)) % PAGE_SIZE == 0
  {
    RoundUpLeast(pos, PAGE_SIZE, RoundUp(address, PAGE_SIZE));
    SubMultiple(RoundUp(address, PAGE_SIZE), RoundUp(pos, PAGE_SIZE), PAGE_SIZE);
  }

  /** The cursors stay a whole number of pages apart. */
  lemma SteadyCursors(b: Builder, spec: Spec, size: nat)
    requires MayFollow(b, spec, size) && b.pos <= b.virtualAddress && !spec.nobits
    requires (b.virtualAddress - b.pos) % PAGE_SIZE == 0 || EffectiveAlign(b, spec) == PAGE_SIZE
    ensures var t := Added(b, spec, size); var s := t.sections[|t.sections| - 1];
            && t.pos <= t.virtualAddress
            && (t.virtualAddress - t.pos) % PAGE_SIZE == 0
            && Shift(s) == t.virtualAddress - t.pos
            && ((b.virtualAddress - b.pos) % PAGE_SIZE == 0 ==>
                  t.virtualAddress - t.pos == b.virtualAddress - b.pos)
  {
    if (b.virtualAddress - b.pos) % PAGE_SIZE == 0 {
      CursorsShift(b.pos, b.virtualAddress, EffectiveAlign(b, spec));
    } else {
      CursorsPaged(b.pos, b.virtualAddress);
    }
  }

  lemma SteadyNoBits(headers: nat, b: Builder, spec: Spec, size: nat)
    requires WellLaid(headers, b) && Steady(headers, b) && MayFollow(b, spec, size) && spec.nobits
    ensures Steady(headers, Added(b, spec, size))
  {
    LoadableAdded(b, spec, size);
    var t, ss := Added(b, spec, size), LoadableIn(b);
    var s := t.sections[|t.sections| - 1];
    MergeableAdded(ss, s);
    PagedAdded(headers, ss, s);
  }

  lemma SteadyMergeable(headers: nat, b: Builder, spec: Spec, size: nat)
    requires Steady(headers, b) && MayFollow(b, spec, size) && !spec.nobits && size > 0
    ensures var t, ss := Added(b, spec, size), LoadableIn(b);
            Mergeable(ss + [t.sections[|t.sections| - 1]], |ss|)
  {
    SteadyCursors(b, spec, size);
    assert b.sections != [] && !b.sections[|b.sections| - 1].InFile() ==>
        LoadableIn(b)[|LoadableIn(b)| - 1] == b.sections[|b.sections| - 1];
  }

  lemma SteadyInFile(headers: nat, b: Builder, spec: Spec, size: nat)
    requires WellLaid(headers, b) && Steady(headers, b) && MayFollow(b, spec, size) && !spec.nobits && size > 0
    ensures Steady(headers, Added(b, spec, size))
  {
    SteadyCursors(b, spec, size);
    LoadableAdded(b, spec, size);
    SteadyMergeable(headers, b, spec, size);
    var t, ss := Added(b, spec, size), LoadableIn(b);
    var s := t.sections[|t.sections| - 1];
    MergeableAdded(ss, s);
    if EffectiveAlign(b, spec) != PAGE_SIZE {
      LoadableInOrder(headers, b, |b.sections|, |b.sections|);
      LastLoad(headers, ss, |ss|);
    }
    PagedAdded(headers, ss, s);
  }

  lemma SteadyEmpty(headers: nat, b: Builder, spec: Spec)
    requires Steady(headers, b) && MayFollow(b, spec, 0)
    ensures Steady(headers, Added(b, spec, 0))
  {
    SteadyCursors(b, spec, 0);
    LoadableAdded(b, spec, 0);
  }

  /** Every section that may follow keeps the file loadable. */
  lemma SteadyAdded(headers: nat, b: Builder, spec: Spec, size: nat)
    requires WellLaid(headers, b) && Steady(headers, b) && MayFollow(b, spec, size)
    ensures Steady(headers, Added(b, spec, size))
  {
    if spec.nobits {
      SteadyNoBits(headers, b, spec, size);
    } else if size > 0 {
      SteadyInFile(headers, b, spec, size);
    } else {
      SteadyEmpty(headers, b, spec);
    }
  }

  /** Sections that are not loaded (debug information, names) do not matter to the loader. */
  lemma NotLoaded(b: Builder, spec: Spec, size: nat)
    requires spec.align > 0 && !spec.flags.Alloc()
    ensures LoadableIn(Added(b, spec, size)) == LoadableIn(b)
  {
    LoadableAdded(b, spec, size);
  }

  /** No byte of memory is described by two segments. */
  lemma MappedOnce(loads: seq<Load>, s: Section, i: nat, j: nat)
    requires Ascending(loads) && Loadable(s) && i < |loads| && j < |loads|
    requires Maps(loads[i], s) && Maps(loads[j], s)
    ensures i == j
  {
  }

  lemma {:induction false} LoadableIsIn(sections: seq<Section>, k: nat, i: nat) returns (at: nat)
    requires i < k <= |sections| && Loadable(sections[i])
    ensures at < |LoadableOf(sections, k)| && LoadableOf(sections, k)[at] == sections[i]
  {
    if i == k - 1 {
      at := |LoadableOf(sections, k)| - 1;
    } else {
      at := LoadableIsIn(sections, k - 1, i);
    }
  }

  /** The segments of a file whose sections were steady, and what the loader makes of them. */
  lemma LoaderSeesSections(headers: nat, b: Builder)
    requires WellLaid(headers, b) && Steady(headers, b)
    ensures var ss := LoadableIn(b); var loads := LoadsOf(headers, ss, |ss|);
            && Ascending(loads) && Paged(loads)
            && forall i :: 0 <= i < |b.sections| && Loadable(b.sections[i]) ==> Mapped(loads, b.sections[i])
  {
    var ss := LoadableIn(b);
    LoadableInOrder(headers, b, |b.sections|, |b.sections|);
    LoadsAscend(headers, ss, |ss|);
    LoadsFaithful(headers, ss);
    forall i | 0 <= i < |b.sections| && Loadable(b.sections[i])
      ensures Mapped(LoadsOf(headers, ss, |ss|), b.sections[i])
    {
      var at := LoadableIsIn(b.sections, |b.sections|, i);
    }
  }

  const FIRST_DATA := Spec(".rodata", false, Allocated, PAGE_SIZE, ReadOnly)
  const UNLOADED := Spec(".debug_info", false, NotAllocated, 1, ReadOnly)
  const SECOND_DATA := Spec(".dynstr", false, Allocated, PAGE_SIZE, ReadOnly)
  const HEADERS_ONLY := Builder(256, 256, [], false)

  /** Read-only data of 10 bytes, 5000 bytes that are not loaded, and read-only data again. */
  function Interleaved(): Builder {
    Added(Added(Added(HEADERS_ONLY, FIRST_DATA, 10), UNLOADED, 5000), SECOND_DATA, 10)
  }

  lemma InterleavedSections()
    ensures var ss := LoadableIn(Interleaved());
            |ss| == 2 && Mergeable(ss, 0) && !Mergeable(ss, 1) && Interleaved().sections[2] == ss[1]
  {
    var first := Added(HEADERS_ONLY, FIRST_DATA, 10);
    LoadableAdded(HEADERS_ONLY, FIRST_DATA, 10);
    NotLoaded(first, UNLOADED, 5000);
    LoadableAdded(Added(first, UNLOADED, 5000), SECOND_DATA, 10);
  }

  /** The loader maps the second read-only section nowhere. */
  lemma InterleavedNotMapped()
    ensures var ss := LoadableIn(Interleaved());
            |Interleaved().sections| == 3 && !Mapped(LoadsOf(256, ss, |ss|), Interleaved().sections[2])
  {
    var first, ss := Added(HEADERS_ONLY, FIRST_DATA, 10), LoadableIn(Interleaved());
    AddedWellLaid(256, HEADERS_ONLY, FIRST_DATA, 10);
    AddedWellLaid(256, first, UNLOADED, 5000);
    AddedWellLaid(256, Added(first, UNLOADED, 5000), SECOND_DATA, 10);
    InterleavedSections();
    LoadableInOrder(256, Interleaved(), 3, 3);
    forall at | 0 <= at < |LoadsOf(256, ss, |ss|)| ensures !Maps(LoadsOf(256, ss, |ss|)[at], ss[1]) {
      NotMapped(256, ss, 1, at);
    }
  }
}
