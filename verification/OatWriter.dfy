/**
 * The oat file as a whole (compiler/oat_writer.cc, runtime/oat_file.cc): from the compiled methods
 * of a list of classes to bytes in which the runtime finds every method, with every byte counted.
 */
module OatWriter {
  import opened Align
  import opened OatTypes
  import opened Words
  import opened OatLayout
  import opened OatWrite
  import opened OatMaps
  import opened OatPatches
  import opened OatFile
  import opened OatVisitors
  import OatVisit
  import Records = ClassRecords

  /**
   * What the oat writer is given. `prefix` is what is already in the file: the oat header, the dex
   * files and the tables that belong to them.
   */
  datatype Input = Input(prog: Program, classes: seq<OatVisit.ClassMethods>, statuses: seq<nat>,
                         hot: set<MethodRef>, target: CodeTarget, resolve: Resolver, prefix: seq<byte>)
  {
    ghost predicate Valid() {
      && prefix != [] && |statuses| == |classes|
      && (forall c :: 0 <= c < |classes| ==> statuses[c] < 65536)
      && (forall r :: r in prog.methods ==> prog.Stores(prog.methods[r]) && LiteralsInside(prog.methods[r]))
    }

    function Flags(): (f: seq<seq<bool>>)
      ensures |f| == |classes|
    {
      seq(|classes|, c requires 0 <= c < |classes| => OatVisit.Flags(prog.methods, classes[c]))
    }

    /** ReserveClassOffsets: the table of class offsets, one word for each class. */
    function TableAt(): (at: nat)
      ensures |prefix| <= at < |prefix| + 4 && (classes != [] ==> at % 4 == 0)
    {
      if classes == [] then |prefix| else RoundUp(|prefix|, 4)
    }

    function ClassesAt(): nat {
      TableAt() + 4 * |classes|
    }

    function ClassAt(c: nat): nat
      requires c <= |classes|
    {
      Records.ClassOffset(ClassesAt(), Flags(), c)
    }

    ghost function Visits(): seq<Visit> {
      OatVisit.Schedule(prog.methods, classes, hot)
    }
  }

  /** The size counters, in the order of the file. */
  datatype Counters = Counters(
    prefix: nat, classOffsetsAlignment: nat, classOffsets: nat, classes: Records.ClassCounters, vmapTable: nat,
    executableOffsetAlignment: nat, trampolineAlignment: nat, trampolines: nat,
    methodHeader: nat, code: nat, codeAlignment: nat, thunks: nat)
  {
    function Total(): nat {
      prefix + classOffsetsAlignment + classOffsets + classes.Total() + vmapTable + executableOffsetAlignment
      + trampolineAlignment + trampolines + methodHeader + code + codeAlignment + thunks
    }
  }

  /** The code offsets of class c, as they are stored. */
  function CodeWords(codeOffsets: map<Slot, nat>, c: nat, count: nat): (words: seq<nat>)
    ensures |words| == count && Records.AllWords(words)
  {
    seq(count, k requires 0 <= k < count => if Slot(c, k) in codeOffsets then Word(codeOffsets[Slot(c, k)]) else 0)
  }

  /** The class offsets, as they are stored. */
  ghost function OffsetWords(inp: Input): (words: seq<nat>)
    ensures |words| == |inp.classes| && Records.AllWords(words)
  {
    seq(|inp.classes|, c requires 0 <= c < |inp.classes| => Word(inp.ClassAt(c)))
  }

  ghost function AllCodeWords(inp: Input, codeOffsets: map<Slot, nat>): (words: seq<seq<nat>>)
    ensures |words| == |inp.classes|
    ensures forall c :: 0 <= c < |words| ==> Records.AllWords(words[c])
  {
    seq(|inp.classes|, c requires 0 <= c < |inp.classes| =>
      CodeWords(codeOffsets, c, OatVisit.Rank(inp.Flags()[c], |inp.Flags()[c]|)))
  }

  /** The part before the vmap tables: class offsets and class records. */
  ghost predicate FrontWritten(inp: Input, codeOffsets: map<Slot, nat>, file: seq<byte>) {
    && inp.prefix <= file && |inp.statuses| == |inp.classes|
    && Records.At(file, inp.TableAt(), Records.Codes(OffsetWords(inp), |inp.classes|))
    && forall c :: 0 <= c < |inp.classes| ==>
         Records.WrittenAt(file, inp.ClassesAt(), inp.statuses, inp.Flags(), AllCodeWords(inp, codeOffsets), c)
  }

  /** WriteClassOffsets, behind the prefix and the padding in front of the table. */
  method WriteClassOffsets(inp: Input, records: seq<Records.Record>) returns (out: seq<byte>)
    requires |records| == |inp.classes|
    requires forall c :: 0 <= c < |records| ==> Records.RecordAt(records[c], inp.ClassesAt(), inp.Flags(), c)
    ensures inp.prefix <= out && |out| == inp.ClassesAt()
    ensures Records.At(out, inp.TableAt(), Records.Codes(OffsetWords(inp), |inp.classes|))
  {
    var offsets := seq(|records|, c requires 0 <= c < |records| => Word(records[c].offset));
    forall c | 0 <= c < |offsets| ensures offsets[c] == OffsetWords(inp)[c] {
      assert Records.RecordAt(records[c], inp.ClassesAt(), inp.Flags(), c);
    }
    assert offsets == OffsetWords(inp);
    var padded := inp.prefix + Zeros(inp.TableAt() - |inp.prefix|);
    out := Records.WriteFully(padded, Records.Codes(offsets, |offsets|));
  }

  method WriteFront(inp: Input, records: seq<Records.Record>, codeOffsets: map<Slot, nat>)
    returns (front: seq<byte>, classes: Records.ClassCounters)
    requires inp.Valid() && |records| == |inp.classes|
    requires forall c :: 0 <= c < |records| ==> Records.RecordAt(records[c], inp.ClassesAt(), inp.Flags(), c)
    ensures FrontWritten(inp, codeOffsets, front) && |front| == inp.ClassAt(|inp.classes|)
    ensures classes.Total() == |front| - inp.ClassesAt()
    ensures classes.status == 2 * |inp.classes| && classes.kind == 2 * |inp.classes|
    ensures classes.offsets == 4 * Records.CompiledIn(inp.Flags(), |inp.classes|)
  {
    var table := WriteClassOffsets(inp, records);
    var flags := inp.Flags();
    var codes := seq(|flags|, c requires 0 <= c < |flags| =>
      CodeWords(codeOffsets, c, OatVisit.Rank(flags[c], |flags[c]|)));
    assert codes == AllCodeWords(inp, codeOffsets);
    forall c | 0 <= c < |flags| ensures Records.RecordOf(records[c], flags[c]) {
      assert Records.RecordAt(records[c], inp.ClassesAt(), inp.Flags(), c);
    }
    front, classes := Records.WriteClasses(table, inp.statuses, records, codes, flags);
    Records.AtPrefix(table, front, inp.TableAt(), Records.Codes(OffsetWords(inp), |inp.classes|));
  }

  /** Trampoline k is where the layout put it. */
  ghost predicate TrampolineAt(file: seq<byte>, isa: InstructionSet, start: nat, trampolines: seq<seq<byte>>, k: nat)
    requires k < |trampolines|
  {
    Records.At(file, isa.AlignCode(TrampolinesEnd(isa, start, trampolines, k)), trampolines[k])
  }

  lemma TrampolineOn(a: seq<byte>, b: seq<byte>, isa: InstructionSet, start: nat, trampolines: seq<seq<byte>>, k: nat)
    requires k < |trampolines| && a <= b && TrampolineAt(a, isa, start, trampolines, k)
    ensures TrampolineAt(b, isa, start, trampolines, k)
  {
    Records.AtPrefix(a, b, isa.AlignCode(TrampolinesEnd(isa, start, trampolines, k)), trampolines[k]);
  }

  method WriteTrampoline(out: seq<byte>, isa: InstructionSet, trampoline: seq<byte>)
    returns (out': seq<byte>, padding: nat)
    ensures out <= out' && |out'| == isa.AlignCode(|out|) + |trampoline| == |out| + padding + |trampoline|
    ensures Records.At(out', isa.AlignCode(|out|), trampoline)
  {
    padding := isa.AlignCode(|out|) - |out|;
    out' := Records.WriteFully(out + Zeros(padding), trampoline);
  }

  function TrampolineBytes(trampolines: seq<seq<byte>>, k: nat): nat
    requires k <= |trampolines|
  {
    if k == 0 then 0 else TrampolineBytes(trampolines, k - 1) + |trampolines[k - 1]|
  }

  /** The trampolines of a boot image, aligned like code. */
  method WriteTrampolines(out: seq<byte>, isa: InstructionSet, trampolines: seq<seq<byte>>)
    returns (out': seq<byte>, alignment: nat, size: nat)
    ensures out <= out' && |out'| == TrampolinesEnd(isa, |out|, trampolines, |trampolines|)
    ensures alignment + size == |out'| - |out| && size == TrampolineBytes(trampolines, |trampolines|)
    ensures forall k :: 0 <= k < |trampolines| ==> TrampolineAt(out', isa, |out|, trampolines, k)
  {
    out', alignment, size := out, 0, 0;
    var k := 0;
    while k < |trampolines|
      invariant 0 <= k <= |trampolines| && out <= out'
      invariant |out'| == TrampolinesEnd(isa, |out|, trampolines, k) && alignment + size == |out'| - |out|
      invariant size == TrampolineBytes(trampolines, k)
      invariant forall j :: 0 <= j < k ==> TrampolineAt(out', isa, |out|, trampolines, j)
    {
      ghost var before := out';
      var padding;
      out', padding := WriteTrampoline(out', isa, trampolines[k]);
      forall j | 0 <= j < k ensures TrampolineAt(out', isa, |out|, trampolines, j) {
        TrampolineOn(before, out', isa, |out|, trampolines, j);
      }
      alignment, size := alignment + padding, size + |trampolines[k]|;
      k := k + 1;
    }
  }

  /** The start of a method's code, given its entry. */
  function CodeAt(m: CompiledMethod, entry: nat): int {
    entry - m.isa.CodeDelta()
  }

  /**
   * The method as the runtime finds it from an entry: its patched code, in front of that a header
   * with the frame of the method that wrote it and the size of the code, and through the header its
   * vmap table.
   */
  ghost predicate MethodAt(file: seq<byte>, m: CompiledMethod, entry: nat, resolve: Resolver, writer: CompiledMethod)
    requires LiteralsInside(m)
  {
    var code := CodeAt(m, entry);
    && HEADER_SIZE <= code && code + |m.code| <= |file|
    && file[code..code + |m.code|] == Patched(m, code, resolve, |m.patches|)
    && Read32(file, code - 16) == Word(writer.frameSize) && Read32(file, code - 12) == Word(writer.coreSpillMask)
    && Read32(file, code - 8) == Word(writer.fpSpillMask) && Read32(file, code - 4) == |m.code|
    && var field := Read32(file, code - HEADER_SIZE);
       && (field == 0 <==> m.vmap == [])
       && TableAt(file, m, code, field)
  }

  /** Bytes of the code part are bytes of the file. */
  lemma BytesInFile(cfg: Config, head: seq<byte>, codeOut: seq<byte>, from: int, to: int)
    requires |head| == cfg.start && from <= to && |Bytes(cfg, codeOut, from, to)| == to - from
    ensures from < to ==> cfg.start <= from && to <= cfg.start + |codeOut|
    ensures from < to ==> (head + codeOut)[from..to] == Bytes(cfg, codeOut, from, to)
  {
  }

  lemma ReadSlice(file: seq<byte>, from: nat, to: nat, at: nat)
    requires from <= to <= |file| && at + 4 <= to - from
    ensures Read32(file[from..to], at) == Read32(file, from + at)
  {
  }

  /** The vmap table of m lies `field` bytes in front of its code. */
  predicate TableAt(file: seq<byte>, m: CompiledMethod, code: int, field: nat) {
    m.vmap != [] ==> Records.At(file, Word(code - field), m.vmap)
  }

  /** A method is found if its header and its code are where they should be. */
  lemma MethodAssembled(file: seq<byte>, m: CompiledMethod, entry: nat, resolve: Resolver, header: seq<byte>,
                        writer: CompiledMethod)
    requires LiteralsInside(m) && |header| == HEADER_SIZE <= CodeAt(m, entry) <= CodeAt(m, entry) + |m.code| <= |file|
    requires file[CodeAt(m, entry) - HEADER_SIZE..CodeAt(m, entry)] == header
    requires file[CodeAt(m, entry)..CodeAt(m, entry) + |m.code|] == Patched(m, CodeAt(m, entry), resolve, |m.patches|)
    requires HeaderFor(header, m, writer)
    requires TableAt(file, m, CodeAt(m, entry), Read32(header, 0))
    ensures MethodAt(file, m, entry, resolve, writer)
  {
    ReadSlice(file, CodeAt(m, entry) - HEADER_SIZE, CodeAt(m, entry), 4);
    ReadSlice(file, CodeAt(m, entry) - HEADER_SIZE, CodeAt(m, entry), 8);
    ReadSlice(file, CodeAt(m, entry) - HEADER_SIZE, CodeAt(m, entry), 12);
    ReadSlice(file, CodeAt(m, entry) - HEADER_SIZE, CodeAt(m, entry), 16);
    ReadSlice(file, CodeAt(m, entry) - HEADER_SIZE, CodeAt(m, entry), 0);
  }

  /** A header and the code behind it. */
  lemma HeaderAndCodeInFile(cfg: Config, head: seq<byte>, codeOut: seq<byte>, code: int, size: nat)
    requires |head| == cfg.start && |Bytes(cfg, codeOut, code - HEADER_SIZE, code)| == HEADER_SIZE
    requires |Bytes(cfg, codeOut, code, code + size)| == size
    ensures HEADER_SIZE <= code && code + size <= |head + codeOut|
    ensures (head + codeOut)[code - HEADER_SIZE..code] == Bytes(cfg, codeOut, code - HEADER_SIZE, code)
    ensures (head + codeOut)[code..code + size] == Bytes(cfg, codeOut, code, code + size)
  {
    BytesInFile(cfg, head, codeOut, code - HEADER_SIZE, code);
    BytesInFile(cfg, head, codeOut, code, code + size);
  }

  /** What holds of the two parts holds of the file. */
  lemma MethodInWholeFile(cfg: Config, mapStart: nat, m: CompiledMethod, entry: nat, mapsOut: seq<byte>,
                          codeOut: seq<byte>, resolve: Resolver, head: seq<byte>, writer: CompiledMethod,
                          header: seq<byte>)
    requires LiteralsInside(m) && 0 <= CodeAt(m, entry)
    requires InFile(cfg, mapStart, m, CodeAt(m, entry), mapsOut, codeOut, resolve, writer, header)
    requires |head| == cfg.start && Records.At(head, mapStart, mapsOut)
    ensures MethodAt(head + codeOut, m, entry, resolve, writer)
  {
    TableForHeader(mapStart, m, CodeAt(m, entry), mapsOut, codeOut, head, header);
    HeaderAndCodeInFile(cfg, head, codeOut, CodeAt(m, entry), |m.code|);
    MethodAssembled(head + codeOut, m, entry, resolve, header, writer);
  }

  lemma TableForHeader(mapStart: nat, m: CompiledMethod, code: nat, mapsOut: seq<byte>, codeOut: seq<byte>,
                       head: seq<byte>, header: seq<byte>)
    requires |header| >= 4 && LeadsToTable(mapStart, mapsOut, code, header, m.vmap)
    requires Records.At(head, mapStart, mapsOut)
    ensures TableAt(head + codeOut, m, code, Read32(header, 0))
  {
    if m.vmap != [] {
      TableInWholeFile(mapStart, mapsOut, head, codeOut, Word(code - Read32(header, 0)), m.vmap);
    }
  }

  lemma TableInWholeFile(mapStart: nat, mapsOut: seq<byte>, head: seq<byte>, codeOut: seq<byte>, at: nat,
                         vmap: seq<byte>)
    requires vmap != [] && MapBytes(mapStart, mapsOut, at, |vmap|) == vmap && Records.At(head, mapStart, mapsOut)
    ensures Records.At(head + codeOut, at, vmap)
  {
    var from := at - mapStart;
    var maps := head[mapStart..mapStart + |mapsOut|];
    forall k | 0 <= k < |vmap| ensures head[at..at + |vmap|][k] == vmap[k] {
      assert maps[from + k] == head[at + k] && mapsOut[from..from + |vmap|][k] == mapsOut[from + k];
    }
    assert head[at..at + |vmap|] == vmap;
    Records.AtOn(head, codeOut, at, vmap);
  }

  /** The table of class offsets is in the file. */
  lemma OffsetFound(inp: Input, codeOffsets: map<Slot, nat>, front: seq<byte>, file: seq<byte>, c: nat)
    requires FrontWritten(inp, codeOffsets, front) && front <= file && c < |inp.classes|
    requires inp.ClassAt(|inp.classes|) < TWO32
    ensures inp.TableAt() + 4 * c + 4 <= |file| && Read32(file, inp.TableAt() + 4 * c) == inp.ClassAt(c)
  {
    Records.AtPrefix(front, file, inp.TableAt(), Records.Codes(OffsetWords(inp), |inp.classes|));
    Records.CodesRead(file, inp.TableAt(), OffsetWords(inp), c);
    Records.StorableBelow(inp.ClassesAt(), inp.Flags(), c);
    WordOf(inp.ClassAt(c), inp.ClassAt(c), 0);
  }

  /** The class offset stored for class c leads to its record. */
  lemma ClassFound(inp: Input, codeOffsets: map<Slot, nat>, front: seq<byte>, file: seq<byte>, c: nat)
    requires FrontWritten(inp, codeOffsets, front) && front <= file && c < |inp.classes|
    requires inp.ClassAt(|inp.classes|) < TWO32
    ensures inp.TableAt() + 4 * c + 4 <= |file| && Read32(file, inp.TableAt() + 4 * c) == inp.ClassAt(c)
    ensures Records.Written(file, inp.ClassAt(c), inp.statuses[c], inp.Flags()[c], AllCodeWords(inp, codeOffsets)[c])
  {
    OffsetFound(inp, codeOffsets, front, file, c);
    Records.StorableBelow(inp.ClassesAt(), inp.Flags(), c);
    var codes := AllCodeWords(inp, codeOffsets);
    assert Records.WrittenAt(front, inp.ClassesAt(), inp.statuses, inp.Flags(), codes, c);
    Records.WrittenAtOn(front, file, inp.ClassesAt(), inp.statuses, inp.Flags(), codes, c);
  }

  /**
   * What the runtime finds for method i of class c: nothing if it is not compiled, else the method,
   * and if that has code, at the offset to which calls of it are led.
   */
  ghost predicate MethodFound(inp: Input, offsets: map<MethodRef, nat>, file: seq<byte>, c: nat, i: nat)
    requires inp.Valid() && c < |inp.classes| && i < |inp.classes[c]|
  {
    var table, ref := inp.TableAt() + 4 * c, inp.classes[c][i];
    && table + 4 <= |file|
    && var at := Read32(file, table);
       && at + 4 <= |file| && (Records.Read16(file, at + 2) == 1 ==> at + 8 + i / 8 < |file|)
       && match Records.FindEntry(file, at, i)
          case None => ref !in inp.prog.methods
          case Some(e) => ref in inp.prog.methods && e + 4 <= |file|
                          && MethodWritten(inp, offsets, file, inp.prog.methods[ref], Read32(file, e))
                          && (inp.prog.methods[ref].code != [] ==>
                                ref in offsets && offsets[ref] == Read32(file, e))
  }

  /** The method is at the entry, with the frame of a method that has the same code. */
  ghost predicate MethodWritten(inp: Input, offsets: map<MethodRef, nat>, file: seq<byte>, m: CompiledMethod,
                                entry: nat)
    requires LiteralsInside(m)
  {
    exists w :: w in inp.prog.methods && KeyOf(inp.prog.methods[w]) == KeyOf(m)
                && MethodAt(file, m, entry, WithOffsets(inp.resolve, offsets), inp.prog.methods[w])
  }

  ghost predicate Compiled(inp: Input, c: nat, i: nat) {
    c < |inp.classes| && i < |inp.classes[c]| && inp.classes[c][i] in inp.prog.methods
  }

  /** The offset the runtime finds for a compiled method. */
  ghost function EntryWord(inp: Input, offsets: map<MethodRef, nat>, file: seq<byte>, c: nat, i: nat): nat
    requires inp.Valid() && Compiled(inp, c, i) && MethodFound(inp, offsets, file, c, i)
  {
    Read32(file, Records.FindEntry(file, Read32(file, inp.TableAt() + 4 * c), i).value)
  }

  /** What it means that a compiled method is found. */
  lemma FoundAt(inp: Input, offsets: map<MethodRef, nat>, file: seq<byte>, c: nat, i: nat)
    returns (writer: CompiledMethod)
    requires inp.Valid() && Compiled(inp, c, i) && MethodFound(inp, offsets, file, c, i)
    ensures var ref, entry := inp.classes[c][i], EntryWord(inp, offsets, file, c, i);
            var m := inp.prog.methods[ref];
            && entry < TWO32 && KeyOf(writer) == KeyOf(m) && LiteralsInside(m)
            && MethodAt(file, m, entry, WithOffsets(inp.resolve, offsets), writer)
            && (m.code != [] ==> ref in offsets && offsets[ref] == entry)
  {
    var m, entry := inp.prog.methods[inp.classes[c][i]], EntryWord(inp, offsets, file, c, i);
    var w :| w in inp.prog.methods && KeyOf(inp.prog.methods[w]) == KeyOf(m)
             && MethodAt(file, m, entry, WithOffsets(inp.resolve, offsets), inp.prog.methods[w]);
    writer := inp.prog.methods[w];
  }

  /** Where the processor arrives when it uses the literal of a patch of the method entered at `entry`. */
  ghost function Arrival(file: seq<byte>, m: CompiledMethod, entry: nat, patch: LinkerPatch): nat
    requires 0 <= CodeAt(m, entry) && CodeAt(m, entry) + patch.literalOffset + 4 <= |file|
  {
    var code := CodeAt(m, entry);
    Word(Anchor(m.isa, code, patch) + Read32(file, code + patch.literalOffset))
  }

  lemma LiteralArrives(file: seq<byte>, m: CompiledMethod, code: nat, resolve: Resolver, k: nat)
    requires LiteralsInside(m) && LiteralsDisjoint(m) && k < |m.patches| && code + |m.code| <= |file|
    requires file[code..code + |m.code|] == Patched(m, code, resolve, |m.patches|)
    requires Writes(m.patches[k]) && Patchable(m.isa, m.patches[k])
    ensures Word(Anchor(m.isa, code, m.patches[k]) + Read32(file, code + m.patches[k].literalOffset)) ==
            Word(resolve.target(m.patches[k]))
  {
    LiteralsLead(m, code, resolve, |m.patches|, k);
    ReadSlice(file, code, code + |m.code|, m.patches[k].literalOffset);
  }

  lemma CallArrives(file: seq<byte>, m: CompiledMethod, entry: nat, resolve: Resolver, k: nat, writer: CompiledMethod)
    requires LiteralsInside(m) && LiteralsDisjoint(m) && MethodAt(file, m, entry, resolve, writer) && k < |m.patches|
    requires Writes(m.patches[k]) && Patchable(m.isa, m.patches[k])
    ensures Arrival(file, m, entry, m.patches[k]) == Word(resolve.target(m.patches[k]))
  {
    LiteralArrives(file, m, CodeAt(m, entry), resolve, k);
  }

  lemma AddressAt(file: seq<byte>, m: CompiledMethod, entry: nat, resolve: Resolver, k: nat, writer: CompiledMethod)
    requires LiteralsInside(m) && LiteralsDisjoint(m) && MethodAt(file, m, entry, resolve, writer) && k < |m.patches|
    requires Writes(m.patches[k]) && Absolute(m.patches[k])
    ensures Read32(file, CodeAt(m, entry) + m.patches[k].literalOffset) == Word(resolve.target(m.patches[k]))
  {
    CallArrives(file, m, entry, resolve, k, writer);
    var word := Read32(file, CodeAt(m, entry) + m.patches[k].literalOffset);
    WordOf(word, word, 0);
  }

  /** Place x of the executable part is the literal of an absolute patch of a method the runtime finds. */
  ghost predicate LiteralOf(inp: Input, o: Output, file: seq<byte>, c: nat, i: nat, k: nat, x: int)
    requires inp.Valid()
  {
    && Compiled(inp, c, i) && MethodFound(inp, o.offsets, file, c, i)
    && var m := inp.prog.methods[inp.classes[c][i]];
       && k < |m.patches| && Absolute(m.patches[k])
       && o.cfg.executable + x == CodeAt(m, EntryWord(inp, o.offsets, file, c, i)) + m.patches[k].literalOffset
  }

  ghost predicate LiteralAt(inp: Input, o: Output, file: seq<byte>, x: int)
    requires inp.Valid()
  {
    exists c, i, k :: LiteralOf(inp, o, file, c, i, k, x)
  }

  /** What stands at a recorded location: the address the patch refers to. */
  lemma AddressStored(inp: Input, o: Output, file: seq<byte>, c: nat, i: nat, k: nat, x: int)
    requires inp.Valid() && LiteralOf(inp, o, file, c, i, k, x)
    requires var m := inp.prog.methods[inp.classes[c][i]]; LiteralsDisjoint(m) && Writes(m.patches[k])
    ensures var m := inp.prog.methods[inp.classes[c][i]];
            && 0 <= o.cfg.executable + x && o.cfg.executable + x + 4 <= |file|
            && var callee := MethodRef(m.patches[k].dexFile, m.patches[k].index);
               Read32(file, o.cfg.executable + x) ==
               Word(if m.patches[k].kind.CallAddress? && callee in o.offsets then o.offsets[callee]
                    else inp.resolve.target(m.patches[k]))
  {
    var m, entry := inp.prog.methods[inp.classes[c][i]], EntryWord(inp, o.offsets, file, c, i);
    var writer := FoundAt(inp, o.offsets, file, c, i);
    AddressAt(file, m, entry, WithOffsets(inp.resolve, o.offsets), k, writer);
  }

  /** A call in the finished file goes where the runtime finds the called method. */
  lemma CallLeads(inp: Input, offsets: map<MethodRef, nat>, file: seq<byte>, c: nat, i: nat, k: nat, d: nat, j: nat)
    requires inp.Valid() && Compiled(inp, c, i) && Compiled(inp, d, j)
    requires MethodFound(inp, offsets, file, c, i) && MethodFound(inp, offsets, file, d, j)
    requires var m := inp.prog.methods[inp.classes[c][i]];
             && LiteralsDisjoint(m) && k < |m.patches| && m.patches[k].IsCall() && Patchable(m.isa, m.patches[k])
             && m.patches[k].TargetMethod() == inp.classes[d][j]
    requires inp.prog.methods[inp.classes[d][j]].code != []
    ensures var m, entry := inp.prog.methods[inp.classes[c][i]], EntryWord(inp, offsets, file, c, i);
            Arrival(file, m, entry, m.patches[k]) == EntryWord(inp, offsets, file, d, j)
  {
    var m, entry, callee := inp.prog.methods[inp.classes[c][i]], EntryWord(inp, offsets, file, c, i), inp.classes[d][j];
    var writer := FoundAt(inp, offsets, file, c, i);
    var _ := FoundAt(inp, offsets, file, d, j);
    CallArrives(file, m, entry, WithOffsets(inp.resolve, offsets), k, writer);
    assert WithOffsets(inp.resolve, offsets).target(m.patches[k]) == offsets[callee];
    WordOf(offsets[callee], offsets[callee], 0);
  }

  /** The visit of a compiled method. */
  ghost function VisitFor(inp: Input, c: nat, i: nat): Visit
    requires c < |inp.classes| && i < |inp.classes[c]| && inp.classes[c][i] in inp.prog.methods
  {
    var ref := inp.classes[c][i];
    Visit(c, OatVisit.Rank(OatVisit.Flags(inp.prog.methods, inp.classes[c]), i), ref, inp.prog.methods[ref])
  }

  lemma VisitScheduled(inp: Input, c: nat, i: nat) returns (j: nat)
    requires c < |inp.classes| && i < |inp.classes[c]| && inp.classes[c][i] in inp.prog.methods
    ensures j < |inp.Visits()| && inp.Visits()[j] == VisitFor(inp, c, i)
  {
    var v := VisitFor(inp, c, i);
    assert OatVisit.VisitOf(inp.prog.methods, inp.classes, v, i);
    OatVisit.ScheduleVisits(inp.prog.methods, inp.classes, inp.hot, v);
    j :| 0 <= j < |inp.Visits()| && inp.Visits()[j] == v;
  }

  /** The entry written for a compiled method is the one of its slot. */
  lemma EntryOfSlot(inp: Input, codeOffsets: map<Slot, nat>, front: seq<byte>, file: seq<byte>, c: nat, i: nat)
    requires FrontWritten(inp, codeOffsets, front) && front <= file && c < |inp.classes| && i < |inp.classes[c]|
    requires inp.ClassAt(|inp.classes|) < TWO32
    requires inp.classes[c][i] in inp.prog.methods && SlotOf(VisitFor(inp, c, i)) in codeOffsets
    requires codeOffsets[SlotOf(VisitFor(inp, c, i))] < TWO32
    ensures var at := inp.ClassAt(c);
            && at + 4 <= |file| && (Records.Read16(file, at + 2) == 1 ==> at + 8 + i / 8 < |file|)
            && var e := Records.FindEntry(file, at, i);
               && e.Some? && e.value + 4 <= |file|
               && Read32(file, e.value) == codeOffsets[SlotOf(VisitFor(inp, c, i))]
  {
    ClassFound(inp, codeOffsets, front, file, c);
    var codes, flags := AllCodeWords(inp, codeOffsets)[c], inp.Flags()[c];
    Records.EntryFound(file, inp.ClassAt(c), inp.statuses[c], flags, codes, i);
    Records.EntryHoldsCode(file, inp.ClassAt(c), inp.statuses[c], flags, codes, i);
    var entry := codeOffsets[SlotOf(VisitFor(inp, c, i))];
    WordOf(entry, entry, 0);
  }

  lemma NoEntry(inp: Input, codeOffsets: map<Slot, nat>, front: seq<byte>, file: seq<byte>, c: nat, i: nat)
    requires FrontWritten(inp, codeOffsets, front) && front <= file && c < |inp.classes| && i < |inp.classes[c]|
    requires inp.ClassAt(|inp.classes|) < TWO32 && inp.classes[c][i] !in inp.prog.methods
    ensures var at := inp.ClassAt(c);
            && at + 4 <= |file| && (Records.Read16(file, at + 2) == 1 ==> at + 8 + i / 8 < |file|)
            && Records.FindEntry(file, at, i) == None
  {
    ClassFound(inp, codeOffsets, front, file, c);
    var codes, flags := AllCodeWords(inp, codeOffsets)[c], inp.Flags()[c];
    Records.EntryFound(file, inp.ClassAt(c), inp.statuses[c], flags, codes, i);
  }

  /** Entries fit in 32 bits if the end of the file does. */
  lemma EntryBounds(p: Passes, j: nat)
    requires j < |p.vs| && p.LaidOut()
    ensures p.vs[j].body.isa.CodeDelta() <= p.Final().entries[j] < TWO32
  {
    CodeBounds(p, j);
    LayoutPlaced(p.cfg, p.prog, p.vs, p.need, p.layout, |p.vs|);
    assert PlacedAt(p.cfg, p.vs[j], p.layout[|p.vs|].entries[j], p.layout[|p.vs|].offset);
    FinalContinues(p.cfg, p.vs, p.need, p.layout, |p.vs|);
  }

  /** Calls of a method with code are led to its entry. */
  lemma TargetIsEntry(p: Passes, j: nat)
    requires j < |p.vs| && p.LaidOut() && p.vs[j].body.code != []
    ensures p.vs[j].ref in p.Final().targets && p.Final().targets[p.vs[j].ref] == p.Final().entries[j]
  {
    LayoutRecorded(p.cfg, p.prog, p.vs, p.need, p.layout, |p.vs|);
    FinalContinues(p.cfg, p.vs, p.need, p.layout, |p.vs|);
  }

  /** The vmap tables end where the layout says. */
  lemma MapsEnd(p: Passes)
    requires p.Valid()
    ensures p.mapStart + |p.mapsWritten[|p.vs|].out| == p.maps[|p.vs|].offset
  {
    CodesFollowTables(p);
    MapSimulation(p.mapStart, p.prog, p.vs, p.maps, p.Codes(), p.mapsWritten, |p.vs|);
  }

  /** The offsets fit in 32 bits and no empty Thumb2 code is repeated at once. */
  ghost predicate InStepWith(inp: Input, o: Output) {
    o.end < TWO32 && forall j :: 0 <= j < |inp.Visits()| ==> !BareThumbRepeat(o.cfg, inp.Visits(), j)
  }

  /** The passes over the methods fit the input, and the tables hold their entries. */
  ghost predicate Fits(inp: Input, o: Output, p: Passes, codeOffsets: map<Slot, nat>) {
    && inp.Valid() && p.vs == inp.Visits() && p.prog == inp.prog && p.cfg == o.cfg
    && p.resolve == WithOffsets(inp.resolve, o.offsets)
    && p.Valid() && p.NoBareThumbRepeat() && p.mapStart == inp.ClassAt(|inp.classes|) < TWO32
    && o.offsets == p.Final().targets && p.written[|p.vs|].out <= o.code && o.maps == p.mapsWritten[|p.vs|].out
    && forall j :: 0 <= j < |p.vs| ==> EntryIs(p, codeOffsets, j)
  }

  ghost predicate EntryIs(p: Passes, codeOffsets: map<Slot, nat>, j: nat)
    requires j < |p.vs| && p.LaidOut()
  {
    SlotOf(p.vs[j]) in codeOffsets && codeOffsets[SlotOf(p.vs[j])] == p.Final().entries[j]
  }

  /** The parts of the file in front of the code. */
  ghost predicate HeadIs(inp: Input, o: Output, codeOffsets: map<Slot, nat>, front: seq<byte>, head: seq<byte>) {
    && FrontWritten(inp, codeOffsets, front) && front <= head && |head| == o.cfg.start
    && Records.At(head, inp.ClassAt(|inp.classes|), o.maps)
  }

  /** Visit j leads to its method in the file. */
  lemma VisitInFile(inp: Input, o: Output, p: Passes, codeOffsets: map<Slot, nat>, head: seq<byte>, j: nat)
    requires Fits(inp, o, p, codeOffsets) && j < |p.vs|
    requires |head| == o.cfg.start && Records.At(head, p.mapStart, o.maps)
    ensures LiteralsInside(p.vs[j].body)
    ensures MethodWritten(inp, o.offsets, head + o.code, p.vs[j].body, p.Final().entries[j])
  {
    var f, header := MethodInFile(p, j);
    EntryBounds(p, j);
    var entry := p.Final().entries[j];
    var m, writer := p.vs[j].body, p.vs[f].body;
    InFileOn(p.cfg, p.mapStart, m, p.Code(j), o.maps, p.written[|p.vs|].out, o.code, p.resolve, writer, header);
    assert CodeAt(m, entry) == p.Code(j) by {
      CodeBounds(p, j);
    }
    MethodInWholeFile(p.cfg, p.mapStart, m, entry, o.maps, o.code, p.resolve, head, writer, header);
    assert p.prog.Has(p.vs[f]) && p.prog.Has(p.vs[j]);
    assert p.vs[f].ref in inp.prog.methods && inp.prog.methods[p.vs[f].ref] == writer;
  }

  lemma CompiledFound(inp: Input, o: Output, p: Passes, codeOffsets: map<Slot, nat>, front: seq<byte>,
                      head: seq<byte>, c: nat, i: nat)
    requires Fits(inp, o, p, codeOffsets) && HeadIs(inp, o, codeOffsets, front, head)
    requires c < |inp.classes| && i < |inp.classes[c]| && inp.classes[c][i] in inp.prog.methods
    ensures MethodFound(inp, o.offsets, head + o.code, c, i)
  {
    var j := VisitScheduled(inp, c, i);
    assert EntryIs(p, codeOffsets, j);
    EntryBounds(p, j);
    ClassFound(inp, codeOffsets, front, head + o.code, c);
    EntryOfSlot(inp, codeOffsets, front, head + o.code, c, i);
    VisitInFile(inp, o, p, codeOffsets, head, j);
    if p.vs[j].body.code != [] {
      TargetIsEntry(p, j);
    }
  }

  /** The runtime finds a method at the entry of its visit. */
  lemma EntryOfVisit(inp: Input, o: Output, p: Passes, codeOffsets: map<Slot, nat>, front: seq<byte>,
                     head: seq<byte>, c: nat, i: nat, j: nat)
    requires Fits(inp, o, p, codeOffsets) && HeadIs(inp, o, codeOffsets, front, head)
    requires Compiled(inp, c, i) && j < |p.vs| && p.vs[j] == VisitFor(inp, c, i)
    ensures MethodFound(inp, o.offsets, head + o.code, c, i)
    ensures EntryWord(inp, o.offsets, head + o.code, c, i) == p.Final().entries[j]
  {
    CompiledFound(inp, o, p, codeOffsets, front, head, c, i);
    assert EntryIs(p, codeOffsets, j);
    EntryBounds(p, j);
    EntryWordIs(inp, o.offsets, codeOffsets, front, head + o.code, c, i);
  }

  lemma EntryWordIs(inp: Input, offsets: map<MethodRef, nat>, codeOffsets: map<Slot, nat>, front: seq<byte>,
                    file: seq<byte>, c: nat, i: nat)
    requires inp.Valid() && Compiled(inp, c, i) && MethodFound(inp, offsets, file, c, i)
    requires FrontWritten(inp, codeOffsets, front) && front <= file && inp.ClassAt(|inp.classes|) < TWO32
    requires SlotOf(VisitFor(inp, c, i)) in codeOffsets && codeOffsets[SlotOf(VisitFor(inp, c, i))] < TWO32
    ensures EntryWord(inp, offsets, file, c, i) == codeOffsets[SlotOf(VisitFor(inp, c, i))]
  {
    OffsetFound(inp, codeOffsets, front, file, c);
    EntryOfSlot(inp, codeOffsets, front, file, c, i);
  }

  /** A recorded location is the literal of an absolute patch. */
  lemma LocationIsLiteral(inp: Input, o: Output, p: Passes, codeOffsets: map<Slot, nat>, front: seq<byte>,
                          head: seq<byte>, j: nat, k: nat, x: int)
    requires Fits(inp, o, p, codeOffsets) && HeadIs(inp, o, codeOffsets, front, head)
    requires LocatedAt(p.cfg, p.vs, p.Final().entries, j, k, x)
    ensures LiteralAt(inp, o, head + o.code, x)
  {
    OatVisit.ScheduleVisits(inp.prog.methods, inp.classes, inp.hot, p.vs[j]);
    var i :| OatVisit.VisitOf(inp.prog.methods, inp.classes, p.vs[j], i);
    var c := p.vs[j].oatClass;
    EntryOfVisit(inp, o, p, codeOffsets, front, head, c, i, j);
    assert LiteralOf(inp, o, head + o.code, c, i, k, x);
  }

  /** The literal of an absolute patch is recorded. */
  lemma LiteralIsLocation(inp: Input, o: Output, p: Passes, codeOffsets: map<Slot, nat>, front: seq<byte>,
                          head: seq<byte>, c: nat, i: nat, k: nat, x: int) returns (f: nat)
    requires Fits(inp, o, p, codeOffsets) && HeadIs(inp, o, codeOffsets, front, head)
    requires LiteralOf(inp, o, head + o.code, c, i, k, x)
    ensures LocatedAt(p.cfg, p.vs, p.Final().entries, f, k, x)
  {
    var j := VisitScheduled(inp, c, i);
    EntryOfVisit(inp, o, p, codeOffsets, front, head, c, i, j);
    f := Writer(p, j);
  }

  /** The recorded locations are exactly the literals of the absolute patches. */
  lemma LocationsFound(inp: Input, o: Output, p: Passes, codeOffsets: map<Slot, nat>, front: seq<byte>,
                       head: seq<byte>)
    requires Fits(inp, o, p, codeOffsets) && HeadIs(inp, o, codeOffsets, front, head)
    requires o.locations == p.Final().locations
    ensures forall x :: x in o.locations <==> LiteralAt(inp, o, head + o.code, x)
  {
    LocationsAre(p.cfg, p.prog, p.vs, p.need, p.layout, |p.vs|);
    forall x ensures x in o.locations <==> LiteralAt(inp, o, head + o.code, x) {
      assert x in o.locations <==> Located(p.cfg, p.vs, p.Final().entries, |p.vs|, x);
      if x in o.locations {
        var j, k :| 0 <= j < |p.vs| && LocatedAt(p.cfg, p.vs, p.Final().entries, j, k, x);
        LocationIsLiteral(inp, o, p, codeOffsets, front, head, j, k, x);
      }
      if LiteralAt(inp, o, head + o.code, x) {
        var c, i, k :| LiteralOf(inp, o, head + o.code, c, i, k, x);
        var f := LiteralIsLocation(inp, o, p, codeOffsets, front, head, c, i, k, x);
      }
    }
  }

  /** Every method of every class is found, compiled or not. */
  lemma AllFound(inp: Input, o: Output, p: Passes, codeOffsets: map<Slot, nat>, front: seq<byte>, head: seq<byte>,
                 c: nat, i: nat)
    requires Fits(inp, o, p, codeOffsets) && HeadIs(inp, o, codeOffsets, front, head)
    requires c < |inp.classes| && i < |inp.classes[c]|
    ensures MethodFound(inp, o.offsets, head + o.code, c, i)
  {
    if inp.classes[c][i] in inp.prog.methods {
      CompiledFound(inp, o, p, codeOffsets, front, head, c, i);
    } else {
      ClassFound(inp, codeOffsets, front, head + o.code, c);
      NoEntry(inp, codeOffsets, front, head + o.code, c, i);
    }
  }

  /** What the passes over the methods leave, seen from the file. */
  lemma OutputFits(inp: Input, o: Output, p: Passes, codeOffsets: map<Slot, nat>)
    requires inp.Valid() && InStepWith(inp, o) && p.Valid() && p.cfg == o.cfg && p.Final().offset == o.end
    requires p.vs == inp.Visits() && p.prog == inp.prog
    requires p.resolve == WithOffsets(inp.resolve, o.offsets) && o.offsets == p.Final().targets
    requires p.mapStart == inp.ClassAt(|inp.classes|) && o.maps == p.mapsWritten[|p.vs|].out
    requires WrittenAs(o, FinalWrite(p.cfg, p.Final(), p.written[|p.vs|]))
    requires forall j :: 0 <= j < |p.vs| ==> EntryIs(p, codeOffsets, j)
    ensures Fits(inp, o, p, codeOffsets) && o.cfg.start + |o.code| == o.end
    ensures p.mapStart + |o.maps| == p.maps[|p.vs|].offset
  {
    MapsEnd(p);
    SameEnd(p.cfg, p.prog, p.vs, p.need, p.layout, p.blobs, p.written);
    FinalContinues(p.cfg, p.vs, p.need, p.layout, 0);
  }

  /** The parts of the file before the code, once the vmap tables have the length of the layout. */
  lemma HeadFits(inp: Input, o: Output, codeOffsets: map<Slot, nat>, front: seq<byte>, padded: seq<byte>,
                 head: seq<byte>)
    requires FrontWritten(inp, codeOffsets, front) && |front| == inp.ClassAt(|inp.classes|)
    requires padded == front + o.maps + Zeros(o.alignment) && padded <= head && |head| == o.cfg.start
    ensures HeadIs(inp, o, codeOffsets, front, head)
  {
    assert Records.At(front + o.maps, |front|, o.maps);
    Records.AtOn(front + o.maps, Zeros(o.alignment), |front|, o.maps);
    Records.AtPrefix(padded, head, |front|, o.maps);
  }

  /** The class records and their offsets, before anything is written. */
  method InitOatClasses(inp: Input) returns (records: seq<Records.Record>, end: nat)
    ensures |records| == |inp.classes| && end == inp.ClassAt(|inp.classes|)
    ensures forall c :: 0 <= c < |records| ==> Records.RecordAt(records[c], inp.ClassesAt(), inp.Flags(), c)
  {
    var flags := inp.Flags();
    var counts := seq(|flags|, c requires 0 <= c < |flags| => OatVisit.Rank(flags[c], |flags[c]|));
    records, end := Records.InitOatClasses(inp.ClassesAt(), flags, counts);
  }

  /**
   * The file is as the layout said: it ends there, the runtime finds in it every method of every
   * class, the trampolines and thunks are in place, and the recorded locations are the literals of the
   * absolute patches.
   */
  ghost predicate FileDone(inp: Input, o: Output, file: seq<byte>)
    requires inp.Valid()
  {
    && |file| == o.end
    && (forall c, i :: 0 <= c < |inp.classes| && 0 <= i < |inp.classes[c]| ==> MethodFound(inp, o.offsets, file, c, i))
    && (forall k :: 0 <= k < |inp.target.trampolines| ==>
          TrampolineAt(file, inp.target.isa, o.cfg.executable, inp.target.trampolines, k))
    && (forall k :: 0 <= k < |o.thunks| ==> ThunkAt(inp, file, o.thunks[k]))
    && (forall x :: x in o.locations <==> LiteralAt(inp, o, file, x))
  }

  /** What the passes over the methods promise. */
  ghost predicate PassesDone(inp: Input, o: Output, p: Passes, codeOffsets: map<Slot, nat>) {
    && |p.need| == |p.layout| == |p.maps| == |p.vs| + 1
    && p.Valid() && p.cfg == o.cfg && p.Final().offset == o.end && p.vs == inp.Visits() && p.prog == inp.prog
    && p.resolve == WithOffsets(inp.resolve, o.offsets) && o.offsets == p.Final().targets
    && o.locations == p.Final().locations && o.thunks == p.Final().thunks
    && p.mapStart == inp.ClassAt(|inp.classes|) && o.maps == p.mapsWritten[|p.vs|].out
    && p.maps[|p.vs|].offset + o.alignment == o.cfg.executable
    && WrittenAs(o, FinalWrite(p.cfg, p.Final(), p.written[|p.vs|])) && inp.target.Places(o.cfg)
    && (forall j :: 0 <= j < |p.vs| ==> EntryIs(p, codeOffsets, j))
    && (forall i :: 0 <= i <= |p.vs| ==> p.need[i] == inp.target.needThunk(i))
  }

  /** Everything in front of the code. */
  ghost predicate HeadWritten(inp: Input, o: Output, codeOffsets: map<Slot, nat>, front: seq<byte>, padded: seq<byte>,
                              head: seq<byte>) {
    && FrontWritten(inp, codeOffsets, front) && |front| == inp.ClassAt(|inp.classes|)
    && padded == front + o.maps + Zeros(o.alignment) && padded <= head
    && |head| == TrampolinesEnd(inp.target.isa, |padded|, inp.target.trampolines, |inp.target.trampolines|)
    && (forall k :: 0 <= k < |inp.target.trampolines| ==>
          TrampolineAt(head, inp.target.isa, |padded|, inp.target.trampolines, k))
  }

  lemma FileIsDone(inp: Input, o: Output, p: Passes, codeOffsets: map<Slot, nat>, front: seq<byte>,
                   padded: seq<byte>, head: seq<byte>)
    requires inp.Valid() && InStepWith(inp, o) && PassesDone(inp, o, p, codeOffsets)
    requires HeadWritten(inp, o, codeOffsets, front, padded, head)
    ensures FileDone(inp, o, head + o.code)
  {
    OutputFits(inp, o, p, codeOffsets);
    HeadDone(inp, o, codeOffsets, front, padded, head);
    EveryMethodFound(inp, o, p, codeOffsets, front, head);
    LocationsFound(inp, o, p, codeOffsets, front, head);
    ThunksFound(inp, o, p, head);
  }

  lemma CodeIsCounted(inp: Input, o: Output, p: Passes, codeOffsets: map<Slot, nat>, counters: Counters)
    requires inp.Valid() && InStepWith(inp, o) && PassesDone(inp, o, p, codeOffsets)
    requires counters.methodHeader == o.sizeMethodHeader && counters.code == o.sizeCode
    requires counters.thunks == o.sizeThunks
    ensures CodeCounters(inp, o, counters)
  {
    CountersInStep(p.cfg, p.prog, p.vs, p.need, p.layout, p.blobs, p.written);
    NeededThunks(inp, o, p.need, |p.vs|);
  }

  /**
   * The whole file. Every byte is counted in exactly one counter. If offsets fit in 32 bits and no
   * empty Thumb2 code is repeated at once, the file is as the layout said, and the runtime finds in it,
   * for every method of every class, its code, header and vmap table, or that it has none.
   */
  method WriteOat(inp: Input) returns (file: seq<byte>, o: Output, counters: Counters)
    requires inp.Valid()
    ensures inp.prefix <= file && counters.Total() == |file| && PlainCounters(inp, o, counters)
    ensures InStepWith(inp, o) ==> FileDone(inp, o, file) && CodeCounters(inp, o, counters)
    ensures o.end < TWO32 && ThumbHasCode(inp.prog) ==> InStepWith(inp, o)
  {
    var records, mapStart := InitOatClasses(inp);
    Records.ClassOffsetsAscend(inp.ClassesAt(), inp.Flags(), 0, |inp.classes|);
    var oatClasses;
    ghost var p;
    o, oatClasses, p := WriteMethods(inp.prog, inp.classes, inp.hot, inp.target, mapStart, inp.resolve);
    var front, classes := WriteFront(inp, records, oatClasses.codeOffsets);
    var padded := front + o.maps + Zeros(o.alignment);
    var head, trampolineAlignment, trampolines := WriteTrampolines(padded, inp.target.isa, inp.target.trampolines);
    file := head + o.code;
    counters := Counters(|inp.prefix|, inp.TableAt() - |inp.prefix|, 4 * |inp.classes|, classes, |o.maps|, o.alignment,
                         trampolineAlignment, trampolines, o.sizeMethodHeader, o.sizeCode, o.sizeCodeAlignment,
                         o.sizeThunks);
    CountersAddUp(p.cfg, p.vs, p.Final(), p.blobs, p.written, |p.vs|);
    StepCondition(inp, o);
    if InStepWith(inp, o) {
      FileIsDone(inp, o, p, oatClasses.codeOffsets, front, padded, head);
      CodeIsCounted(inp, o, p, oatClasses.codeOffsets, counters);
    }
  }

  /** The counters whose value the input and the layout determine. */
  ghost predicate PlainCounters(inp: Input, o: Output, counters: Counters) {
    && counters.prefix == |inp.prefix| && counters.classOffsetsAlignment < 4
    && counters.classOffsets == 4 * |inp.classes|
    && counters.classes.status == 2 * |inp.classes| && counters.classes.kind == 2 * |inp.classes|
    && counters.classes.offsets == 4 * Records.CompiledIn(inp.Flags(), |inp.classes|)
    && counters.vmapTable == |o.maps| && counters.executableOffsetAlignment < PAGE_SIZE
    && counters.trampolines == TrampolineBytes(inp.target.trampolines, |inp.target.trampolines|)
  }

  /** One header and one copy of the code for each piece of code, and the thunks where they are needed. */
  ghost predicate CodeCounters(inp: Input, o: Output, counters: Counters) {
    var vs := inp.Visits();
    && counters.methodHeader == 20 * CountFirst(o.cfg, vs, |vs|) && counters.code == CodeOfFirst(o.cfg, vs, |vs|)
    && |o.thunks| == ThunksNeeded(inp, o.cfg, |vs|) + (if inp.target.needThunk(|vs|) then 1 else 0)
    && counters.thunks == |inp.target.thunk| * |o.thunks|
  }

  /** New code among the first n visits for which the patcher wants a thunk. */
  ghost function ThunksNeeded(inp: Input, cfg: Config, n: nat): nat
    requires n <= |inp.Visits()|
  {
    if n == 0 then 0
    else ThunksNeeded(inp, cfg, n - 1) + if First(cfg, inp.Visits(), n - 1) && inp.target.needThunk(n - 1) then 1 else 0
  }

  lemma {:induction false} NeededThunks(inp: Input, o: Output, need: seq<bool>, n: nat)
    requires n <= |inp.Visits()| < |need| && forall i :: 0 <= i < |need| ==> need[i] == inp.target.needThunk(i)
    ensures CountThunks(o.cfg, inp.Visits(), need, n) == ThunksNeeded(inp, o.cfg, n)
  {
    if n > 0 {
      NeededThunks(inp, o, need, n - 1);
    }
  }

  /** A thunk lies in the file, aligned for its instruction set. */
  ghost predicate ThunkAt(inp: Input, file: seq<byte>, at: nat) {
    at % inp.target.thunkIsa.Mod() == inp.target.thunkIsa.Residue() && Records.At(file, at, inp.target.thunk)
  }

  lemma ThunksFound(inp: Input, o: Output, p: Passes, head: seq<byte>)
    requires p.LaidOut() && WriteRun(p.cfg, p.vs, p.Final(), p.blobs, p.written) && p.NoBareThumbRepeat()
    requires p.cfg == o.cfg && inp.target.Places(o.cfg) && |head| == o.cfg.start && o.thunks == p.Final().thunks
    requires WrittenAs(o, FinalWrite(p.cfg, p.Final(), p.written[|p.vs|]))
    ensures forall k :: 0 <= k < |o.thunks| ==> ThunkAt(inp, head + o.code, o.thunks[k])
  {
    var w := FinalWrite(p.cfg, p.Final(), p.written[|p.vs|]);
    ThunkBytes(p.cfg, p.vs, p.Final(), p.blobs, p.written, |p.vs|);
    SameEnd(p.cfg, p.prog, p.vs, p.need, p.layout, p.blobs, p.written);
    forall k | 0 <= k < |o.thunks| ensures ThunkAt(inp, head + o.code, o.thunks[k]) {
      assert ThunkIn(p.cfg, o.thunks, w.out, k);
      ThunkInFile(o.cfg, head, o.code, o.thunks, k);
    }
  }

  lemma ThunkInFile(cfg: Config, head: seq<byte>, code: seq<byte>, thunks: seq<nat>, k: nat)
    requires ThunkIn(cfg, thunks, code, k) && |head| == cfg.start
    ensures Records.At(head + code, thunks[k], cfg.thunk)
  {
    var at := thunks[k] - cfg.start;
    assert (head + code)[thunks[k]..thunks[k] + |cfg.thunk|] == code[at..at + |cfg.thunk|];
  }

  lemma StepCondition(inp: Input, o: Output)
    requires inp.Valid()
    ensures o.end < TWO32 && ThumbHasCode(inp.prog) ==> InStepWith(inp, o)
  {
    ScheduleLinked(inp.prog, inp.classes, inp.hot);
    if ThumbHasCode(inp.prog) {
      forall j | 0 <= j < |inp.Visits()| ensures !BareThumbRepeat(o.cfg, inp.Visits(), j) {
        NoBareRepeat(o.cfg, inp.prog, inp.Visits(), j);
      }
    }
  }

  /** Everything in front of the code is where the layout says. */
  lemma HeadDone(inp: Input, o: Output, codeOffsets: map<Slot, nat>, front: seq<byte>, padded: seq<byte>,
                 head: seq<byte>)
    requires FrontWritten(inp, codeOffsets, front) && |front| == inp.ClassAt(|inp.classes|)
    requires padded == front + o.maps + Zeros(o.alignment) && padded <= head
    requires |padded| == o.cfg.executable && inp.target.Places(o.cfg)
    requires |head| == TrampolinesEnd(inp.target.isa, |padded|, inp.target.trampolines, |inp.target.trampolines|)
    requires forall k :: 0 <= k < |inp.target.trampolines| ==>
               TrampolineAt(head, inp.target.isa, |padded|, inp.target.trampolines, k)
    ensures HeadIs(inp, o, codeOffsets, front, head)
    ensures forall k :: 0 <= k < |inp.target.trampolines| ==>
              TrampolineAt(head + o.code, inp.target.isa, o.cfg.executable, inp.target.trampolines, k)
  {
    HeadFits(inp, o, codeOffsets, front, padded, head);
    TrampolinesOn(head, o.code, inp.target.isa, |padded|, inp.target.trampolines);
  }

  lemma EveryMethodFound(inp: Input, o: Output, p: Passes, codeOffsets: map<Slot, nat>, front: seq<byte>,
                         head: seq<byte>)
    requires Fits(inp, o, p, codeOffsets) && HeadIs(inp, o, codeOffsets, front, head)
    ensures forall c, i :: 0 <= c < |inp.classes| && 0 <= i < |inp.classes[c]| ==>
                             MethodFound(inp, o.offsets, head + o.code, c, i)
  {
    forall c, i | 0 <= c < |inp.classes| && 0 <= i < |inp.classes[c]|
      ensures MethodFound(inp, o.offsets, head + o.code, c, i)
    {
      AllFound(inp, o, p, codeOffsets, front, head, c, i);
    }
  }

  lemma TrampolinesOn(head: seq<byte>, more: seq<byte>, isa: InstructionSet, start: nat, trampolines: seq<seq<byte>>)
    requires forall k :: 0 <= k < |trampolines| ==> TrampolineAt(head, isa, start, trampolines, k)
    ensures forall k :: 0 <= k < |trampolines| ==> TrampolineAt(head + more, isa, start, trampolines, k)
  {
    forall k | 0 <= k < |trampolines| ensures TrampolineAt(head + more, isa, start, trampolines, k) {
      TrampolineOn(head, head + more, isa, start, trampolines, k);
    }
  }
}
