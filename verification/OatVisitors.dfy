/**
 * The four method visitors of the oat writer (compiler/oat_writer.cc) as they run over a
 * schedule, with the classes' tables between them: what they leave in the tables and in the
 * output are runs of the layout and write passes.
 */
module OatVisitors {
  import opened Align
  import opened OatTypes
  import opened Words
  import opened OatLayout
  import opened OatWrite
  import opened OatMaps
  import opened OatPatches
  import opened OatFile
  import OatVisit

  /** An index into a class' tables. */
  datatype Slot = Slot(oatClass: nat, index: nat)

  function SlotOf(v: Visit): Slot {
    Slot(v.oatClass, v.slot)
  }

  ghost predicate DistinctSlots(vs: seq<Visit>) {
    forall i, j :: 0 <= i < j < |vs| ==> SlotOf(vs[i]) != SlotOf(vs[j])
  }

  /** method_headers_ and method_offsets_ of all classes; both start out zero. */
  class OatClasses {
    var headers: map<Slot, Header>
    var codeOffsets: map<Slot, nat>

    constructor ()
      ensures headers == map[] && codeOffsets == map[]
    {
      headers, codeOffsets := map[], map[];
    }
  }

  /** The start of the code for an entry. */
  function CodeOf(v: Visit, entry: nat): nat {
    if v.body.isa.CodeDelta() <= entry then entry - v.body.isa.CodeDelta() else 0
  }

  class InitMapMethodVisitor {
    var offset: nat
    var dedupeMap: map<nat, nat>
    ghost var stored: seq<nat>

    constructor (offset: nat)
      ensures State() == MapLayout(offset, map[], [])
    {
      this.offset, dedupeMap, stored := offset, map[], [];
    }

    ghost function State(): MapLayout
      reads this
    {
      MapLayout(offset, dedupeMap, stored)
    }

    method VisitMethod(v: Visit, oatClasses: OatClasses)
      modifies this, oatClasses`headers
      ensures State() == MapStep(old(State()), v)
      ensures oatClasses.headers == old(oatClasses.headers)[SlotOf(v) := Header(stored[|old(stored)|], 0, 0, 0, 0)]
    {
      var field := 0;
      if v.body.vmap != [] {
        if v.body.vmapId !in dedupeMap {
          dedupeMap := dedupeMap[v.body.vmapId := offset];
          offset := offset + |v.body.vmap|;
        }
        field := Negated(dedupeMap[v.body.vmapId]);
      }
      oatClasses.headers := oatClasses.headers[SlotOf(v) := Header(field, 0, 0, 0, 0)];
      stored := stored + [field];
    }
  }

  ghost predicate MapRunTo(start: nat, vs: seq<Visit>, run: seq<MapLayout>, n: nat) {
    && n <= |vs| && |run| == n + 1 && run[0] == MapLayout(start, map[], [])
    && forall i :: 0 <= i < n ==> MapStepAt(vs, run, i)
  }

  lemma MapRunOn(start: nat, vs: seq<Visit>, run: seq<MapLayout>, n: nat, next: MapLayout)
    requires n < |vs| && MapRunTo(start, vs, run, n) && next == MapStep(run[n], vs[n])
    ensures MapRunTo(start, vs, run + [next], n + 1)
  {
    forall i | 0 <= i < n + 1 ensures MapStepAt(vs, run + [next], i) {
      assert i < n ==> MapStepAt(vs, run, i);
    }
  }

  /** Vmap table offsets of the first n visits. */
  ghost predicate HasTablesTo(table: map<Slot, Header>, vs: seq<Visit>, stored: seq<nat>, n: nat) {
    && n <= |vs| && |stored| == n
    && forall i :: 0 <= i < n ==> HasTable(table, vs[i], stored[i])
  }

  ghost predicate HasTable(table: map<Slot, Header>, v: Visit, stored: nat) {
    SlotOf(v) in table && table[SlotOf(v)].vmapTableOffset == stored
  }

  lemma TablesOn(table: map<Slot, Header>, vs: seq<Visit>, stored: seq<nat>, n: nat, h: Header)
    requires n < |vs| && DistinctSlots(vs) && HasTablesTo(table, vs, stored, n)
    ensures HasTablesTo(table[SlotOf(vs[n]) := h], vs, stored + [h.vmapTableOffset], n + 1)
  {
    forall i | 0 <= i < n
      ensures HasTable(table[SlotOf(vs[n]) := h], vs[i], (stored + [h.vmapTableOffset])[i])
    {
      assert HasTable(table, vs[i], stored[i]) && SlotOf(vs[i]) != SlotOf(vs[n]);
    }
  }

  method InitOatMaps(vs: seq<Visit>, offset: nat, oatClasses: OatClasses)
    returns (end: nat, ghost run: seq<MapLayout>)
    requires DistinctSlots(vs)
    modifies oatClasses`headers
    ensures MapRunTo(offset, vs, run, |vs|) && end == run[|vs|].offset
    ensures HasTablesTo(oatClasses.headers, vs, run[|vs|].stored, |vs|)
  {
    var visitor := new InitMapMethodVisitor(offset);
    run := [visitor.State()];
    var n := 0;
    while n < |vs|
      invariant 0 <= n <= |vs| && MapRunTo(offset, vs, run, n) && run[n] == visitor.State()
      invariant HasTablesTo(oatClasses.headers, vs, visitor.stored, n)
    {
      ghost var headers, stored := oatClasses.headers, visitor.stored;
      visitor.VisitMethod(vs[n], oatClasses);
      TablesOn(headers, vs, stored, n, Header(visitor.stored[n], 0, 0, 0, 0));
      assert visitor.stored == stored + [visitor.stored[n]];
      MapRunOn(offset, vs, run, n, visitor.State());
      run := run + [visitor.State()];
      n := n + 1;
    }
    end := visitor.offset;
  }

  class InitCodeMethodVisitor {
    const cfg: Config
    var offset: nat
    var dedupeMap: map<CodeKey, nat>
    var methodOffsets: map<MethodRef, nat>     // of the relative patcher
    var thunkLocations: seq<nat>               // of the relative patcher
    var absolutePatchLocations: seq<int>
    ghost var entries: seq<nat>
    ghost var novel: seq<bool>

    constructor (cfg: Config)
      ensures this.cfg == cfg && State() == Layout(cfg.start, map[], map[], [], [], [], [])
    {
      this.cfg := cfg;
      offset, dedupeMap, methodOffsets, thunkLocations := cfg.start, map[], map[], [];
      absolutePatchLocations, entries, novel := [], [], [];
    }

    ghost function State(): Layout
      reads this
    {
      Layout(offset, dedupeMap, methodOffsets, thunkLocations, absolutePatchLocations, entries, novel)
    }

    /** The patcher's part of NewQuickCodeOffset, and its end-of-code step. */
    method ReserveSpace(need: bool)
      modifies this`offset, this`thunkLocations
      ensures State() == OatLayout.ReserveSpace(cfg, old(State()), need)
    {
      if need {
        var at := cfg.thunkIsa.AlignCode(offset);
        thunkLocations := thunkLocations + [at];
        offset := at + |cfg.thunk|;
      }
    }

    method NewQuickCodeOffset(v: Visit, need: bool) returns (entry: nat)
      modifies this`offset, this`thunkLocations
      ensures State() == Created(cfg, old(State()), v, need).(dedupe := dedupeMap)
      ensures entry == EntryAt(v, offset)
    {
      ReserveSpace(need);
      offset := offset + Padding(offset, v.body.isa);
      entry := offset + HEADER_SIZE + v.body.isa.CodeDelta();
    }

    method RecordPatches(base: int, m: CompiledMethod)
      modifies this`absolutePatchLocations
      ensures absolutePatchLocations == old(absolutePatchLocations) + PatchLocations(base, m.patches, |m.patches|)
    {
      ghost var before := absolutePatchLocations;
      var k := 0;
      while k < |m.patches|
        invariant 0 <= k <= |m.patches|
        invariant absolutePatchLocations == before + PatchLocations(base, m.patches, k)
      {
        if !m.patches[k].IsPcRelative() {
          absolutePatchLocations := absolutePatchLocations + [base + m.patches[k].literalOffset];
        }
        k := k + 1;
      }
    }

    /** Finds shared code or makes room for new code. */
    method FindOrCreate(v: Visit, need: bool) returns (entry: nat, deduped: bool)
      modifies this`offset, this`thunkLocations, this`dedupeMap
      ensures var s := old(State());
              if Known(cfg, s, v).Some? then deduped && entry == Known(cfg, s, v).value && State() == s
              else !deduped && State() == Created(cfg, s, v, need) && entry == EntryAt(v, offset)
    {
      entry, deduped := 0, true;
      if cfg.debuggable {
        if v.ref in methodOffsets {
          entry := methodOffsets[v.ref];
        } else {
          entry := NewQuickCodeOffset(v, need);
          deduped := false;
        }
      } else if KeyOf(v.body) in dedupeMap {
        entry := dedupeMap[KeyOf(v.body)];
      } else {
        entry := NewQuickCodeOffset(v, need);
        deduped := false;
        dedupeMap := dedupeMap[KeyOf(v.body) := entry];
      }
    }

    /** SetOffset, unless there is an earlier definition; then past the code if it is new. */
    method Record(v: Visit, entry: nat, deduped: bool)
      requires deduped || entry == EntryAt(v, offset)
      modifies this
      ensures dedupeMap == old(dedupeMap) && entries == old(entries) + [entry]
      ensures var s := old(State());
              State() == if deduped
                         then s.(targets := Remember(s.targets, v, entry), entries := s.entries + [entry],
                                 novel := s.novel + [false])
                         else Passed(cfg, s, v)
    {
      if v.body.code != [] && v.ref !in methodOffsets {
        methodOffsets := methodOffsets[v.ref := entry];
      }
      if !deduped {
        offset := offset + HEADER_SIZE + |v.body.code|;
        RecordPatches(offset - |v.body.code| - cfg.executable, v.body);
      }
      entries, novel := entries + [entry], novel + [!deduped];
    }

    /** The visitor's own part of a visit: everything but the classes' tables. */
    method Place(v: Visit, need: bool) returns (entry: nat)
      modifies this
      ensures State() == LayoutStep(cfg, old(State()), v, need)
      ensures entries == old(entries) + [entry]
    {
      var deduped;
      entry, deduped := FindOrCreate(v, need);
      Record(v, entry, deduped);
    }

    method VisitMethod(v: Visit, need: bool, oatClasses: OatClasses)
      requires SlotOf(v) in oatClasses.headers
      modifies this, oatClasses
      ensures State() == LayoutStep(cfg, old(State()), v, need)
      ensures |entries| == |old(entries)| + 1 && old(entries) <= entries
      ensures oatClasses.codeOffsets == old(oatClasses.codeOffsets)[SlotOf(v) := entries[|old(entries)|]]
      ensures oatClasses.headers == old(oatClasses.headers)[SlotOf(v) :=
                HeaderOf(v.body, old(oatClasses.headers[SlotOf(v)].vmapTableOffset),
                         CodeOf(v, entries[|old(entries)|]))]
    {
      var entry := Place(v, need);
      var header := HeaderOf(v.body, oatClasses.headers[SlotOf(v)].vmapTableOffset, CodeOf(v, entry));
      oatClasses.headers := oatClasses.headers[SlotOf(v) := header];
      oatClasses.codeOffsets := oatClasses.codeOffsets[SlotOf(v) := entry];
    }
  }

  ghost predicate LayoutRunTo(cfg: Config, vs: seq<Visit>, need: seq<bool>, run: seq<Layout>, n: nat) {
    && n <= |vs| < |need| && |run| == n + 1 && run[0] == Layout(cfg.start, map[], map[], [], [], [], [])
    && forall i :: 0 <= i < n ==> LayoutStepAt(cfg, vs, need, run, i)
  }

  lemma LayoutRunOn(cfg: Config, vs: seq<Visit>, need: seq<bool>, run: seq<Layout>, n: nat, next: Layout)
    requires n < |vs| && LayoutRunTo(cfg, vs, need, run, n) && next == LayoutStep(cfg, run[n], vs[n], need[n])
    ensures LayoutRunTo(cfg, vs, need, run + [next], n + 1)
  {
    forall i | 0 <= i < n + 1 ensures LayoutStepAt(cfg, vs, need, run + [next], i) {
      assert i < n ==> LayoutStepAt(cfg, vs, need, run, i);
    }
  }

  /** What the layout pass leaves in the tables for a visit. */
  ghost predicate Published(oatClasses: OatClasses, v: Visit, stored: nat, entry: nat)
    reads oatClasses
  {
    && SlotOf(v) in oatClasses.codeOffsets && oatClasses.codeOffsets[SlotOf(v)] == entry
    && SlotOf(v) in oatClasses.headers
    && oatClasses.headers[SlotOf(v)] == HeaderOf(v.body, stored, CodeOf(v, entry))
  }

  method InitOatCodeDexFiles(cfg: Config, vs: seq<Visit>, need: seq<bool>, oatClasses: OatClasses,
                             ghost stored: seq<nat>)
    returns (visitor: InitCodeMethodVisitor, ghost run: seq<Layout>)
    requires DistinctSlots(vs) && |need| == |vs| + 1 && HasTablesTo(oatClasses.headers, vs, stored, |vs|)
    modifies oatClasses
    ensures LayoutRun(cfg, vs, need, run) && fresh(visitor)
    ensures visitor.State() == FinalLayout(cfg, vs, need, run) && |visitor.entries| == |vs|
    ensures forall i :: 0 <= i < |vs| ==> Published(oatClasses, vs[i], stored[i], visitor.entries[i])
  {
    visitor := new InitCodeMethodVisitor(cfg);
    run := [visitor.State()];
    var n := 0;
    while n < |vs|
      invariant 0 <= n <= |vs| && fresh(visitor) && visitor.cfg == cfg
      invariant LayoutRunTo(cfg, vs, need, run, n) && run[n] == visitor.State()
      invariant |visitor.entries| == n
      invariant forall i :: 0 <= i < n ==> Published(oatClasses, vs[i], stored[i], visitor.entries[i])
      invariant forall i :: n <= i < |vs| ==> HasTable(oatClasses.headers, vs[i], stored[i])
    {
      assert HasTable(oatClasses.headers, vs[n], stored[n]);
      visitor.VisitMethod(vs[n], need[n], oatClasses);
      LayoutRunOn(cfg, vs, need, run, n, visitor.State());
      run := run + [visitor.State()];
      n := n + 1;
    }
    visitor.ReserveSpace(need[n]);
  }

  // -- The write passes

  ghost predicate MapWriteRunTo(start: nat, vs: seq<Visit>, stored: seq<nat>, codes: seq<nat>,
                                run: seq<MapWritten>, n: nat)
  {
    && n <= |vs| == |stored| == |codes| && |run| == n + 1 && run[0] == MapWritten(start, [], [])
    && forall i :: 0 <= i < n ==> MapWriteStepAt(vs, stored, codes, run, i)
  }

  lemma MapWriteRunOn(start: nat, vs: seq<Visit>, stored: seq<nat>, codes: seq<nat>,
                      run: seq<MapWritten>, n: nat, next: MapWritten)
    requires n < |vs| && MapWriteRunTo(start, vs, stored, codes, run, n)
    requires next == MapWriteStep(run[n], vs[n], Rebased(stored[n], codes[n]), codes[n])
    ensures MapWriteRunTo(start, vs, stored, codes, run + [next], n + 1)
  {
    forall i | 0 <= i < n + 1 ensures MapWriteStepAt(vs, stored, codes, run + [next], i) {
      assert i < n ==> MapWriteStepAt(vs, stored, codes, run, i);
    }
  }

  class WriteMapMethodVisitor {
    var offset: nat
    var out: seq<byte>
    ghost var wrote: seq<bool>

    constructor (offset: nat)
      ensures State() == MapWritten(offset, [], [])
    {
      this.offset, out, wrote := offset, [], [];
    }

    ghost function State(): MapWritten
      reads this
    {
      MapWritten(offset, wrote, out)
    }

    method VisitMethod(v: Visit, oatClasses: OatClasses)
      requires SlotOf(v) in oatClasses.headers && SlotOf(v) in oatClasses.codeOffsets
      modifies this
      ensures State() == MapWriteStep(old(State()), v, oatClasses.headers[SlotOf(v)].vmapTableOffset,
                                      CodeOf(v, oatClasses.codeOffsets[SlotOf(v)]))
    {
      var field := oatClasses.headers[SlotOf(v)].vmapTableOffset;
      var code: int := CodeOf(v, oatClasses.codeOffsets[SlotOf(v)]);
      ghost var write := false;
      if field != 0 {
        var mapOffset := Word(code - field);
        if mapOffset == offset {
          write := true;
          out := out + v.body.vmap;
          offset := offset + |v.body.vmap|;
        }
      }
      wrote := wrote + [write];
    }
  }

  method WriteMaps(vs: seq<Visit>, start: nat, oatClasses: OatClasses,
                   ghost stored: seq<nat>, ghost entries: seq<nat>, ghost codes: seq<nat>)
    returns (out: seq<byte>, ghost run: seq<MapWritten>)
    requires |stored| == |entries| == |codes| == |vs|
    requires forall i :: 0 <= i < |vs| ==> Published(oatClasses, vs[i], stored[i], entries[i])
    requires forall i :: 0 <= i < |vs| ==> codes[i] == CodeOf(vs[i], entries[i])
    ensures MapWriteRunTo(start, vs, stored, codes, run, |vs|) && out == run[|vs|].out
  {
    var visitor := new WriteMapMethodVisitor(start);
    run := [visitor.State()];
    var n := 0;
    while n < |vs|
      invariant 0 <= n <= |vs| && fresh(visitor)
      invariant MapWriteRunTo(start, vs, stored, codes, run, n) && run[n] == visitor.State()
      invariant forall i :: 0 <= i < |vs| ==> Published(oatClasses, vs[i], stored[i], entries[i])
    {
      assert Published(oatClasses, vs[n], stored[n], entries[n]);
      visitor.VisitMethod(vs[n], oatClasses);
      MapWriteRunOn(start, vs, stored, codes, run, n, visitor.State());
      run := run + [visitor.State()];
      n := n + 1;
    }
    out := visitor.out;
  }

  ghost predicate WriteRunTo(cfg: Config, vs: seq<Visit>, final: Layout, blobs: seq<Blob>,
                             run: seq<Written>, n: nat)
  {
    && n <= |vs| == |final.entries| && |run| == n + 1 && |blobs| == n
    && run[0] == Written(cfg.start, 0, [], [], 0, 0, 0, 0)
    && (forall i :: 0 <= i < n ==> BlobOf(vs[i], blobs[i]))
    && (forall i :: 0 <= i < n ==> WriteStepAt(cfg, vs, final, blobs, run, i))
    && (forall i :: 0 <= i <= n ==> run[i].nextThunk <= |final.thunks|)
  }

  lemma WriteRunOn(cfg: Config, vs: seq<Visit>, final: Layout, blobs: seq<Blob>,
                   run: seq<Written>, n: nat, blob: Blob, next: Written)
    requires n < |vs| && WriteRunTo(cfg, vs, final, blobs, run, n) && BlobOf(vs[n], blob)
    requires next == WriteStep(cfg, run[n], vs[n], final.entries[n], blob, final.thunks)
    ensures WriteRunTo(cfg, vs, final, blobs + [blob], run + [next], n + 1)
  {
    forall i | 0 <= i < n + 1 ensures WriteStepAt(cfg, vs, final, blobs + [blob], run + [next], i) {
      assert i < n ==> WriteStepAt(cfg, vs, final, blobs, run, i);
      assert run[i].nextThunk <= |final.thunks|;
    }
    forall i | 0 <= i < n + 1 ensures BlobOf(vs[i], (blobs + [blob])[i]) {
      assert i < n ==> BlobOf(vs[i], blobs[i]);
    }
  }

  class WriteCodeMethodVisitor {
    const cfg: Config
    const thunkLocations: seq<nat>
    const resolve: Resolver
    var offset: nat
    var currentThunkToWrite: nat
    var out: seq<byte>
    var sizeMethodHeader: nat
    var sizeCode: nat
    var sizeCodeAlignment: nat
    var sizeThunks: nat
    ghost var wrote: seq<bool>

    constructor (cfg: Config, thunkLocations: seq<nat>, resolve: Resolver)
      ensures this.cfg == cfg && this.thunkLocations == thunkLocations && this.resolve == resolve
      ensures State() == Written(cfg.start, 0, [], [], 0, 0, 0, 0)
    {
      this.cfg, this.thunkLocations, this.resolve := cfg, thunkLocations, resolve;
      offset, currentThunkToWrite, out, wrote := cfg.start, 0, [], [];
      sizeMethodHeader, sizeCode, sizeCodeAlignment, sizeThunks := 0, 0, 0, 0;
    }

    ghost function State(): Written
      reads this
    {
      Written(offset, currentThunkToWrite, wrote, out, sizeMethodHeader, sizeCode, sizeCodeAlignment, sizeThunks)
    }

    method WriteThunks()
      requires currentThunkToWrite <= |thunkLocations|
      modifies this
      ensures State() == OatWrite.WriteThunks(cfg, old(State()), thunkLocations)
    {
      if currentThunkToWrite == |thunkLocations| {
        return;
      }
      var aligned := cfg.thunkIsa.AlignCode(offset);
      if aligned == thunkLocations[currentThunkToWrite] {
        currentThunkToWrite := currentThunkToWrite + 1;
        out := out + Zeros(aligned - offset) + cfg.thunk;
        sizeCodeAlignment := sizeCodeAlignment + (aligned - offset);
        sizeThunks := sizeThunks + |cfg.thunk|;
        offset := aligned + |cfg.thunk|;
      }
    }

    /** Alignment, header and patched code; returns what was written. */
    method WriteBlob(v: Visit, header: Header) returns (blob: Blob)
      requires LiteralsInside(v.body)
      modifies this
      ensures |v.body.code| <= offset
      ensures blob == Blob(HeaderBytes(header), Patched(v.body, offset - |v.body.code|, resolve, |v.body.patches|))
      ensures var t := old(State());
              var pad := Padding(t.offset, v.body.isa);
              State() == t.(offset := t.offset + pad + HEADER_SIZE + |v.body.code|, wrote := t.wrote + [true],
                            out := t.out + Zeros(pad) + blob.header + blob.code,
                            sizeHeader := t.sizeHeader + HEADER_SIZE, sizeCode := t.sizeCode + |v.body.code|,
                            sizeAlignment := t.sizeAlignment + pad)
    {
      var pad := Padding(offset, v.body.isa);
      offset := offset + pad;
      sizeCodeAlignment := sizeCodeAlignment + pad;
      sizeMethodHeader := sizeMethodHeader + HEADER_SIZE;
      offset := offset + HEADER_SIZE;
      var patchedCode := new byte[|v.body.code|];
      PatchCode(v.body, offset, resolve, patchedCode);
      blob := Blob(HeaderBytes(header), patchedCode[..]);
      out := out + Zeros(pad) + blob.header + blob.code;
      sizeCode := sizeCode + |v.body.code|;
      offset := offset + |v.body.code|;
      wrote := wrote + [true];
    }

    method VisitMethod(v: Visit, oatClasses: OatClasses) returns (ghost blob: Blob)
      requires LiteralsInside(v.body) && currentThunkToWrite <= |thunkLocations|
      requires SlotOf(v) in oatClasses.headers && SlotOf(v) in oatClasses.codeOffsets
      modifies this
      ensures State() == WriteStep(cfg, old(State()), v, oatClasses.codeOffsets[SlotOf(v)], blob, thunkLocations)
      ensures BlobOf(v, blob) && blob.header == HeaderBytes(oatClasses.headers[SlotOf(v)])
      ensures blob.code == Patched(v.body, if |v.body.code| <= offset then offset - |v.body.code| else 0,
                                   resolve, |v.body.patches|)
    {
      var header := oatClasses.headers[SlotOf(v)];
      if oatClasses.codeOffsets[SlotOf(v)] > offset {
        WriteThunks();
        var written := WriteBlob(v, header);
        blob := written;
      } else {
        wrote := wrote + [false];
        blob := Blob(HeaderBytes(header),
                     Patched(v.body, if |v.body.code| <= offset then offset - |v.body.code| else 0,
                             resolve, |v.body.patches|));
      }
    }
  }

  method WriteCode(cfg: Config, vs: seq<Visit>, thunkLocations: seq<nat>, resolve: Resolver, oatClasses: OatClasses,
                   ghost stored: seq<nat>, ghost final: Layout)
    returns (visitor: WriteCodeMethodVisitor, ghost blobs: seq<Blob>, ghost run: seq<Written>)
    requires |stored| == |final.entries| == |vs| && final.thunks == thunkLocations
    requires forall i :: 0 <= i < |vs| ==> LiteralsInside(vs[i].body)
    requires forall i :: 0 <= i < |vs| ==> Published(oatClasses, vs[i], stored[i], final.entries[i])
    ensures WriteRun(cfg, vs, final, blobs, run) && visitor.State() == FinalWrite(cfg, final, run[|vs|])
    ensures forall i :: 0 <= i < |vs| ==>
              blobs[i] == WrittenBlob(vs[i], stored[i], final.entries[i], run[i + 1], resolve)
  {
    visitor := new WriteCodeMethodVisitor(cfg, thunkLocations, resolve);
    run, blobs := [visitor.State()], [];
    var n := 0;
    while n < |vs|
      invariant 0 <= n <= |vs| && fresh(visitor)
      invariant visitor.cfg == cfg && visitor.thunkLocations == thunkLocations && visitor.resolve == resolve
      invariant WriteRunTo(cfg, vs, final, blobs, run, n) && run[n] == visitor.State()
      invariant forall i :: 0 <= i < |vs| ==> Published(oatClasses, vs[i], stored[i], final.entries[i])
      invariant forall i :: 0 <= i < n ==>
                  blobs[i] == WrittenBlob(vs[i], stored[i], final.entries[i], run[i + 1], resolve)
    {
      assert Published(oatClasses, vs[n], stored[n], final.entries[n]) && LiteralsInside(vs[n].body);
      ghost var blob := visitor.VisitMethod(vs[n], oatClasses);
      WriteRunOn(cfg, vs, final, blobs, run, n, blob, visitor.State());
      run, blobs := run + [visitor.State()], blobs + [blob];
      n := n + 1;
    }
    visitor.WriteThunks();
  }

  /** What a visit writes, if it writes: w is the state of the write pass after it. */
  ghost function WrittenBlob(v: Visit, stored: nat, entry: nat, w: Written, resolve: Resolver): Blob
    requires LiteralsInside(v.body)
  {
    Blob(HeaderBytes(HeaderOf(v.body, stored, CodeOf(v, entry))),
         Patched(v.body, if |v.body.code| <= w.offset then w.offset - |v.body.code| else 0,
                 resolve, |v.body.patches|))
  }

  /** The schedule's visits come from the program. */
  lemma ScheduleLinked(prog: Program, classes: seq<OatVisit.ClassMethods>, hot: set<MethodRef>)
    requires forall r :: r in prog.methods ==> prog.Stores(prog.methods[r]) && LiteralsInside(prog.methods[r])
    ensures var vs := OatVisit.Schedule(prog.methods, classes, hot);
            && Linked(prog, vs) && DistinctSlots(vs)
            && forall i :: 0 <= i < |vs| ==> LiteralsInside(vs[i].body)
  {
    var vs := OatVisit.Schedule(prog.methods, classes, hot);
    OatVisit.StablePartition(prog.methods, classes, hot);
    forall i | 0 <= i < |vs| ensures prog.Has(vs[i]) {
      assert vs[i] in vs;
      OatVisit.ScheduleVisits(prog.methods, classes, hot, vs[i]);
      var k :| OatVisit.VisitOf(prog.methods, classes, vs[i], k);
    }
  }

  ghost function CodesOf(vs: seq<Visit>, entries: seq<nat>): seq<nat>
    requires |entries| == |vs|
  {
    seq(|vs|, i requires 0 <= i < |vs| => CodeOf(vs[i], entries[i]))
  }

  /** The passes fit together. */
  lemma PassesFit(p: Passes)
    requires p.LaidOut() && |p.written| == |p.vs| + 1 && |p.blobs| == |p.vs|
    requires MapWriteRunTo(p.mapStart, p.vs, p.maps[|p.vs|].stored, CodesOf(p.vs, p.Final().entries),
                           p.mapsWritten, |p.vs|)
    requires WriteRun(p.cfg, p.vs, p.Final(), p.blobs, p.written)
    requires forall i :: 0 <= i < |p.vs| ==>
               p.blobs[i] == WrittenBlob(p.vs[i], p.maps[|p.vs|].stored[i], p.Final().entries[i], p.written[i + 1],
                                         p.resolve)
    ensures p.Valid()
  {
    assert p.Codes() == CodesOf(p.vs, p.Final().entries);
    forall i | 0 <= i < |p.vs| ensures p.BlobAt(i) {
      assert p.Code(i) == CodeOf(p.vs[i], p.Final().entries[i]);
    }
  }

  /** Where the first k trampolines end, each aligned like code. */
  function TrampolinesEnd(isa: InstructionSet, offset: nat, trampolines: seq<seq<byte>>, k: nat): nat
    requires k <= |trampolines|
  {
    if k == 0 then offset
    else isa.AlignCode(TrampolinesEnd(isa, offset, trampolines, k - 1)) + |trampolines[k - 1]|
  }

  /** InitOatCode: the executable offset, and the trampolines of a boot image behind it. */
  method InitOatCode(offset: nat, isa: InstructionSet, trampolines: seq<seq<byte>>)
    returns (executable: nat, end: nat, alignment: nat)
    ensures executable == RoundUp(offset, PAGE_SIZE) == offset + alignment
    ensures executable <= end == TrampolinesEnd(isa, executable, trampolines, |trampolines|)
  {
    executable := RoundUp(offset, PAGE_SIZE);
    alignment, end := executable - offset, executable;
    var k := 0;
    while k < |trampolines|
      invariant 0 <= k <= |trampolines|
      invariant executable <= end == TrampolinesEnd(isa, executable, trampolines, k)
    {
      end := isa.AlignCode(end) + |trampolines[k]|;
      k := k + 1;
    }
  }

  /**
   * The oat writer's layout passes over the methods. mapStart is where the vmap tables start;
   * needThunk stands for the relative patcher's decisions.
   */
  method PrepareLayout(prog: Program, vs: seq<Visit>, target: CodeTarget, mapStart: nat, oatClasses: OatClasses)
    returns (cfg: Config, init: InitCodeMethodVisitor, alignment: nat, ghost p: Passes)
    requires Linked(prog, vs) && DistinctSlots(vs) && 0 < mapStart
    requires forall i :: 0 <= i < |vs| ==> LiteralsInside(vs[i].body)
    modifies oatClasses
    ensures p.cfg == cfg && p.prog == prog && p.vs == vs && p.mapStart == mapStart
    ensures |p.need| == |p.layout| == |p.maps| == |vs| + 1 && LayoutRun(cfg, vs, p.need, p.layout)
    ensures target.Places(cfg) && p.maps[|vs|].offset + alignment == cfg.executable && alignment < PAGE_SIZE
    ensures init.State() == p.Final() && |p.maps[|vs|].stored| == |init.entries| == |vs|
    ensures forall i :: 0 <= i <= |vs| ==> p.need[i] == target.needThunk(i)
    ensures p.Final().offset < TWO32 ==> p.LaidOut()
    ensures forall i :: 0 <= i < |vs| ==> Published(oatClasses, vs[i], p.maps[|vs|].stored[i], init.entries[i])
  {
    var mapsEnd, maps := InitOatMaps(vs, mapStart, oatClasses);
    var executable, start;
    executable, start, alignment := InitOatCode(mapsEnd, target.isa, target.trampolines);
    cfg := Config(target.debuggable, target.thunkIsa, target.thunk, executable, start);
    var need := seq(|vs| + 1, i requires 0 <= i <= |vs| => target.needThunk(i));
    ghost var layout;
    init, layout := InitOatCodeDexFiles(cfg, vs, need, oatClasses, maps[|vs|].stored);
    p := Passes(cfg, prog, vs, Resolver(_ => 0, (_, _, _, _, _) => 0), mapStart, maps, need, layout, [], [], []);
  }

  /** The options and the instruction set the oat file is written for. */
  datatype CodeTarget = CodeTarget(isa: InstructionSet, trampolines: seq<seq<byte>>, debuggable: bool,
                                   thunkIsa: InstructionSet, thunk: seq<byte>, needThunk: nat -> bool)
  {
    predicate Places(cfg: Config) {
      && cfg.executable % PAGE_SIZE == 0 && cfg.executable <= cfg.start && cfg.debuggable == debuggable
      && cfg.thunkIsa == thunkIsa && cfg.thunk == thunk
      && cfg.start == TrampolinesEnd(isa, cfg.executable, trampolines, |trampolines|)
    }
  }

  /** What the passes over the methods leave: the two parts of the file and the numbers about them. */
  datatype Output = Output(cfg: Config, end: nat, alignment: nat, maps: seq<byte>, code: seq<byte>,
                           offsets: map<MethodRef, nat>, locations: seq<int>, thunks: seq<nat>,
                           sizeMethodHeader: nat, sizeCode: nat, sizeCodeAlignment: nat, sizeThunks: nat)

  /** All passes, in order. */
  method WriteMethods(prog: Program, classes: seq<OatVisit.ClassMethods>, hot: set<MethodRef>,
                      target: CodeTarget, mapStart: nat, resolve: Resolver)
    returns (o: Output, oatClasses: OatClasses, ghost p: Passes)
    requires 0 < mapStart
    requires forall r :: r in prog.methods ==> prog.Stores(prog.methods[r]) && LiteralsInside(prog.methods[r])
    ensures p.vs == OatVisit.Schedule(prog.methods, classes, hot) && p.prog == prog
    ensures p.resolve == WithOffsets(resolve, o.offsets) && p.mapStart == mapStart
    ensures p.cfg == o.cfg && target.Places(o.cfg)
    ensures |p.need| == |p.layout| == |p.maps| == |p.vs| + 1 && LayoutRun(p.cfg, p.vs, p.need, p.layout)
    ensures p.Final().offset == o.end && o.locations == p.Final().locations && o.offsets == p.Final().targets
    ensures o.thunks == p.Final().thunks && forall i :: 0 <= i <= |p.vs| ==> p.need[i] == target.needThunk(i)
    ensures p.maps[|p.vs|].offset + o.alignment == o.cfg.executable && o.alignment < PAGE_SIZE
    ensures WriteRun(p.cfg, p.vs, p.Final(), p.blobs, p.written)
    ensures WrittenAs(o, FinalWrite(p.cfg, p.Final(), p.written[|p.vs|]))
    ensures o.end < TWO32 ==> p.Valid() && o.maps == p.mapsWritten[|p.vs|].out
    ensures |p.Final().entries| == |p.vs|
    ensures forall i :: 0 <= i < |p.vs| ==>
              SlotOf(p.vs[i]) in oatClasses.codeOffsets
              && oatClasses.codeOffsets[SlotOf(p.vs[i])] == p.Final().entries[i]
  {
    var order := new OatVisit.OatDexMethodVisitor(prog.methods, |classes|);
    order.VisitDexMethodsTwice(classes, hot);
    var vs := order.visits;
    ScheduleLinked(prog, classes, hot);
    oatClasses := new OatClasses();
    var cfg, init, alignment, q := PrepareLayout(prog, vs, target, mapStart, oatClasses);
    ghost var stored, final, mapsWritten := q.maps[|vs|].stored, q.Final(), [];
    var mapsOut;
    mapsOut, mapsWritten := WriteMaps(vs, mapStart, oatClasses, stored, final.entries, CodesOf(vs, final.entries));
    var linked := WithOffsets(resolve, init.methodOffsets);
    var writer, blobs, written := WriteCode(cfg, vs, init.thunkLocations, linked, oatClasses, stored, final);
    o := Output(cfg, init.offset, alignment, mapsOut, writer.out, init.methodOffsets, init.absolutePatchLocations,
                init.thunkLocations, writer.sizeMethodHeader, writer.sizeCode, writer.sizeCodeAlignment,
                writer.sizeThunks);
    p := q.(resolve := linked, mapsWritten := mapsWritten, blobs := blobs, written := written);
    if final.offset < TWO32 {
      LaidOutSame(q, p);
      PassesFit(p);
    }
    assert forall i :: 0 <= i < |vs| ==> Published(oatClasses, vs[i], stored[i], final.entries[i]);
  }

  /** The output and the counters are those of the write pass. */
  predicate WrittenAs(o: Output, w: Written) {
    && o.code == w.out && o.sizeMethodHeader == w.sizeHeader && o.sizeCode == w.sizeCode
    && o.sizeCodeAlignment == w.sizeAlignment && o.sizeThunks == w.sizeThunks
  }

  lemma LaidOutSame(q: Passes, p: Passes)
    requires q.LaidOut()
    requires p == q.(resolve := p.resolve, mapsWritten := p.mapsWritten, blobs := p.blobs, written := p.written)
    ensures p.LaidOut() && p.Final() == q.Final()
  {
  }

  /**
   * The method is in the finished file: from its entry one finds its patched code, in front of that
   * a header with the frame of the method that wrote it and the size of the code, and through the
   * header its vmap table.
   */
  ghost predicate InFile(cfg: Config, mapStart: nat, m: CompiledMethod, code: nat, mapsOut: seq<byte>,
                         codeOut: seq<byte>, resolve: Resolver, writer: CompiledMethod, header: seq<byte>)
    requires LiteralsInside(m)
  {
    && Bytes(cfg, codeOut, code, code + |m.code|) == Patched(m, code, resolve, |m.patches|)
    && Bytes(cfg, codeOut, code - HEADER_SIZE, code) == header && HeaderFor(header, m, writer)
    && LeadsToTable(mapStart, mapsOut, code, header, m.vmap)
  }

  /** The first word of the header leads from the code to the vmap table. */
  predicate LeadsToTable(mapStart: nat, mapsOut: seq<byte>, code: nat, header: seq<byte>, vmap: seq<byte>) {
    vmap != [] ==> |header| >= 4 && MapBytes(mapStart, mapsOut, Word(code - Read32(header, 0)), |vmap|) == vmap
  }

  lemma BytesKept(cfg: Config, a: seq<byte>, b: seq<byte>, from: int, to: int)
    requires a <= b && from <= to && |Bytes(cfg, a, from, to)| == to - from
    ensures Bytes(cfg, b, from, to) == Bytes(cfg, a, from, to)
  {
    assert a == b[..|a|];
  }

  lemma InFileOn(cfg: Config, mapStart: nat, m: CompiledMethod, code: nat, mapsOut: seq<byte>, a: seq<byte>,
                 b: seq<byte>, resolve: Resolver, writer: CompiledMethod, header: seq<byte>)
    requires LiteralsInside(m) && a <= b && InFile(cfg, mapStart, m, code, mapsOut, a, resolve, writer, header)
    ensures InFile(cfg, mapStart, m, code, mapsOut, b, resolve, writer, header)
  {
    BytesKept(cfg, a, b, code - HEADER_SIZE, code);
    BytesKept(cfg, a, b, code, code + |m.code|);
  }

  lemma MethodInFile(p: Passes, j: nat) returns (f: nat, header: seq<byte>)
    requires j < |p.vs| && p.Valid() && p.NoBareThumbRepeat()
    ensures LiteralsInside(p.vs[j].body)
    ensures f <= j && (f == j || Shares(p.cfg, p.vs[f], p.vs[j]))
    ensures InFile(p.cfg, p.mapStart, p.vs[j].body, p.Code(j), p.mapsWritten[|p.vs|].out,
                   p.written[|p.vs|].out, p.resolve, p.vs[f].body, header)
  {
    f := EntryLeadsToMethod(p, j);
    header := p.Text(p.Code(j) - HEADER_SIZE, p.Code(j));
  }
}
