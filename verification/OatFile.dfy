/**
 * The finished oat file: what a method's entry leads to, once all passes have run
 * (compiler/oat_writer.cc, runtime/oat_quick_method_header.h).
 */
module OatFile {
  import opened Align
  import opened OatTypes
  import opened Words
  import opened OatLayout
  import opened OatWrite
  import opened OatMaps
  import opened OatPatches

  /** OatQuickMethodHeader. */
  datatype Header = Header(vmapTableOffset: nat, frameSize: nat, coreSpillMask: nat, fpSpillMask: nat, codeSize: nat)

  function HeaderBytes(h: Header): (b: seq<byte>)
    ensures |b| == HEADER_SIZE
  {
    Le32(Word(h.vmapTableOffset)) + Le32(Word(h.frameSize)) + Le32(Word(h.coreSpillMask))
    + Le32(Word(h.fpSpillMask)) + Le32(Word(h.codeSize))
  }

  /** The header for a method whose code starts at `code`; stored comes from the vmap table layout. */
  function HeaderOf(m: CompiledMethod, stored: nat, code: nat): Header {
    Header(Rebased(stored, code), m.frameSize, m.coreSpillMask, m.fpSpillMask, |m.code|)
  }

  /** Everything that the four passes over one schedule went through. */
  datatype Passes = Passes(
    cfg: Config, prog: Program, vs: seq<Visit>, resolve: Resolver,
    mapStart: nat, maps: seq<MapLayout>,           // InitMapMethodVisitor
    need: seq<bool>, layout: seq<Layout>,          // InitCodeMethodVisitor
    mapsWritten: seq<MapWritten>,                  // WriteMapMethodVisitor
    blobs: seq<Blob>, written: seq<Written>)       // WriteCodeMethodVisitor
  {
    function Final(): Layout
      requires |need| == |layout| == |vs| + 1
    {
      FinalLayout(cfg, vs, need, layout)
    }

    /** The layout passes, and what they have to leave room for. */
    ghost predicate LaidOut() {
      && Linked(prog, vs)
      && (forall i :: 0 <= i < |vs| ==> LiteralsInside(vs[i].body))
      && LayoutRun(cfg, vs, need, layout) && MapRun(mapStart, vs, maps)
      && 0 < mapStart && maps[|vs|].offset <= cfg.start && Final().offset < TWO32
      && |Final().entries| == |maps[|vs|].stored| == |vs|
    }

    /** Start of the code of visit i. */
    function Code(i: nat): nat
      requires i < |vs| && |need| == |layout| == |vs| + 1 && |Final().entries| == |vs|
    {
      if CodeStart(vs, Final(), i) >= 0 then CodeStart(vs, Final(), i) else 0
    }

    function Codes(): seq<nat>
      requires |need| == |layout| == |vs| + 1 && |Final().entries| == |vs|
    {
      seq(|vs|, i requires 0 <= i < |vs| => Code(i))
    }

    /** Where the write pass has its code if it writes any at visit i. */
    function WrittenCode(i: nat): nat
      requires i < |vs| && |written| == |vs| + 1
    {
      if |vs[i].body.code| <= written[i + 1].offset then written[i + 1].offset - |vs[i].body.code| else 0
    }

    ghost predicate BlobAt(i: nat)
      requires LaidOut() && i < |vs| == |blobs| && |written| == |vs| + 1
    {
      && blobs[i].header == HeaderBytes(HeaderOf(vs[i].body, maps[|vs|].stored[i], Code(i)))
      && blobs[i].code == Patched(vs[i].body, WrittenCode(i), resolve, |vs[i].body.patches|)
    }

    /** The write passes ran with what the layout passes left. */
    ghost predicate Valid() {
      && LaidOut()
      && MapWriteRun(mapStart, vs, maps[|vs|].stored, Codes(), mapsWritten)
      && WriteRun(cfg, vs, Final(), blobs, written)
      && forall i :: 0 <= i < |vs| ==> BlobAt(i)
    }

    ghost predicate NoBareThumbRepeat() {
      forall j :: 0 <= j < |vs| ==> !BareThumbRepeat(cfg, vs, j)
    }

    /** The bytes [from, to) of the .text part, and `size` bytes of the vmap tables. */
    ghost function Text(from: int, to: int): seq<byte>
      requires Valid()
    {
      Bytes(cfg, written[|vs|].out, from, to)
    }

    ghost function Table(at: nat, size: nat): seq<byte>
      requires Valid()
    {
      MapBytes(mapStart, mapsWritten[|vs|].out, at, size)
    }
  }

  lemma {:induction false} PatchedSame(a: CompiledMethod, b: CompiledMethod, code: nat, resolve: Resolver, k: nat)
    requires a.isa == b.isa && a.code == b.code && a.patches == b.patches
    requires LiteralsInside(a) && LiteralsInside(b) && k <= |a.patches|
    ensures Patched(a, code, resolve, k) == Patched(b, code, resolve, k)
  {
    if k > 0 {
      PatchedSame(a, b, code, resolve, k - 1);
    }
  }

  /** The visit that wrote the blob visit j uses: j itself or the first one it shares code with. */
  lemma Writer(p: Passes, j: nat) returns (f: nat)
    requires j < |p.vs| && p.LaidOut()
    ensures f <= j && First(p.cfg, p.vs, f) && (f == j || Shares(p.cfg, p.vs[f], p.vs[j]))
    ensures p.Final().entries[f] == p.Final().entries[j]
    ensures var a, b := p.vs[f].body, p.vs[j].body;
            a.isa == b.isa && a.code == b.code && a.patches == b.patches && a.vmap == b.vmap && a.vmapId == b.vmapId
  {
    assert p.prog.Has(p.vs[j]);
    if First(p.cfg, p.vs, j) {
      f := j;
    } else {
      var i :| 0 <= i < j && Shares(p.cfg, p.vs[i], p.vs[j]);
      f := FirstSharer(p.cfg, p.vs, i, j);
      assert p.prog.Has(p.vs[f]);
      SharedEntry(p.cfg, p.prog, p.vs, p.need, p.layout, f, j);
      FinalContinues(p.cfg, p.vs, p.need, p.layout, |p.vs|);
    }
  }

  /** Code starts after the vmap tables and its header. */
  lemma CodeBounds(p: Passes, i: nat)
    requires i < |p.vs| && p.LaidOut()
    ensures p.Code(i) == CodeStart(p.vs, p.Final(), i)
    ensures p.cfg.start + HEADER_SIZE <= p.Code(i) && p.Code(i) + |p.vs[i].body.code| < TWO32
  {
    EndOf(p.cfg, p.prog, p.vs, p.need, p.layout, i, |p.vs|);
    LayoutPlaced(p.cfg, p.prog, p.vs, p.need, p.layout, |p.vs|);
    assert PlacedAt(p.cfg, p.vs[i], p.layout[|p.vs|].entries[i], p.layout[|p.vs|].offset);
    FinalContinues(p.cfg, p.vs, p.need, p.layout, |p.vs|);
  }

  lemma CodesFollowTables(p: Passes)
    requires p.LaidOut()
    ensures CodesAfter(p.maps[|p.vs|].offset, p.Codes())
  {
    forall i | 0 <= i < |p.vs| ensures p.maps[|p.vs|].offset <= p.Codes()[i] < TWO32 {
      CodeBounds(p, i);
    }
  }

  /** Methods with the same table and the same code get the same vmap table offset. */
  lemma SameField(p: Passes, f: nat, j: nat)
    requires f < |p.vs| && j < |p.vs| && p.LaidOut()
    requires p.vs[f].body.vmapId == p.vs[j].body.vmapId && p.vs[f].body.vmap == p.vs[j].body.vmap
    ensures p.maps[|p.vs|].stored[f] == p.maps[|p.vs|].stored[j]
  {
    MapLayoutPlaced(p.mapStart, p.prog, p.vs, p.maps, |p.vs|);
  }

  lemma NewBlobInPlace(p: Passes, f: nat)
    requires f < |p.vs| && p.Valid() && p.NoBareThumbRepeat() && First(p.cfg, p.vs, f)
    ensures |p.blobs[f].header| == HEADER_SIZE && |p.blobs[f].code| == |p.vs[f].body.code|
    ensures p.Text(p.Code(f) - HEADER_SIZE, p.Code(f) + |p.vs[f].body.code|) == p.blobs[f].header + p.blobs[f].code
  {
    CodeBounds(p, f);
    assert p.BlobAt(f) && LiteralsInside(p.vs[f].body);
    FirstVisitBytes(p.cfg, p.prog, p.vs, p.need, p.layout, p.blobs, p.written, f);
  }

  /** The header and code of a first visit are where the layout put them. */
  lemma NewCodeInPlace(p: Passes, f: nat)
    requires f < |p.vs| && p.Valid() && p.NoBareThumbRepeat() && First(p.cfg, p.vs, f)
    ensures p.Text(p.Code(f) - HEADER_SIZE, p.Code(f)) == p.blobs[f].header
    ensures p.Text(p.Code(f), p.Code(f) + |p.vs[f].body.code|) == p.blobs[f].code
  {
    NewBlobInPlace(p, f);
    SplitBytes(p.cfg, p.written[|p.vs|].out, p.Code(f) - HEADER_SIZE, p.blobs[f].header, p.blobs[f].code);
  }

  /** In front of and at every method's code lie the header and code of the blob's writer. */
  lemma BlobInPlace(p: Passes, j: nat) returns (f: nat)
    requires j < |p.vs| && p.Valid() && p.NoBareThumbRepeat()
    ensures f <= j && First(p.cfg, p.vs, f) && (f == j || Shares(p.cfg, p.vs[f], p.vs[j]))
    ensures var a, b := p.vs[f].body, p.vs[j].body; p.Code(f) == p.Code(j) && |a.code| == |b.code|
    ensures p.Text(p.Code(j) - HEADER_SIZE, p.Code(j))
            == HeaderBytes(HeaderOf(p.vs[f].body, p.maps[|p.vs|].stored[j], p.Code(j)))
    ensures p.Text(p.Code(j), p.Code(j) + |p.vs[j].body.code|)
            == Patched(p.vs[j].body, p.Code(j), p.resolve, |p.vs[j].body.patches|)
  {
    f := Writer(p, j);
    SameField(p, f, j);
    NewCodeInPlace(p, f);
    WrittenInPlace(p, f);
    assert LiteralsInside(p.vs[f].body) && LiteralsInside(p.vs[j].body) && p.BlobAt(f);
    PatchedSame(p.vs[f].body, p.vs[j].body, p.Code(j), p.resolve, |p.vs[j].body.patches|);
  }

  /** New code is patched for the place that the layout pass gave it. */
  lemma WrittenInPlace(p: Passes, f: nat)
    requires f < |p.vs| && p.Valid() && p.NoBareThumbRepeat() && First(p.cfg, p.vs, f)
    ensures p.WrittenCode(f) == p.Code(f)
  {
    Simulation(p.cfg, p.prog, p.vs, p.need, p.layout, p.blobs, p.written, f + 1);
    FirstEnd(p.cfg, p.prog, p.vs, p.need, p.layout, f);
    FinalEntry(p.cfg, p.prog, p.vs, p.need, p.layout, f);
    CodeBounds(p, f);
  }

  lemma SplitBytes(cfg: Config, out: seq<byte>, from: int, a: seq<byte>, b: seq<byte>)
    requires a + b != [] && Bytes(cfg, out, from, from + |a| + |b|) == a + b
    ensures Bytes(cfg, out, from, from + |a|) == a
    ensures Bytes(cfg, out, from + |a|, from + |a| + |b|) == b
  {
    assert (a + b)[..|a|] == a && (a + b)[|a|..] == b;
  }

  lemma ReadField(b: seq<byte>, at: nat, w: nat)
    requires w < TWO32 && at + 4 <= |b| && b[at..at + 4] == Le32(w)
    ensures Read32(b, at) == w
  {
    ReadLe32(w);
    assert b[at] == Le32(w)[0] && b[at + 1] == Le32(w)[1] && b[at + 2] == Le32(w)[2] && b[at + 3] == Le32(w)[3];
  }

  lemma HeaderFields(h: Header)
    ensures Read32(HeaderBytes(h), 0) == Word(h.vmapTableOffset)
    ensures Read32(HeaderBytes(h), 4) == Word(h.frameSize)
    ensures Read32(HeaderBytes(h), 8) == Word(h.coreSpillMask)
    ensures Read32(HeaderBytes(h), 12) == Word(h.fpSpillMask)
    ensures Read32(HeaderBytes(h), 16) == Word(h.codeSize)
  {
    ReadField(HeaderBytes(h), 0, Word(h.vmapTableOffset));
    ReadField(HeaderBytes(h), 4, Word(h.frameSize));
    ReadField(HeaderBytes(h), 8, Word(h.coreSpillMask));
    ReadField(HeaderBytes(h), 12, Word(h.fpSpillMask));
    ReadField(HeaderBytes(h), 16, Word(h.codeSize));
  }

  /** The header describes the frame of the method: size, core registers, floating point registers. */
  predicate DescribesFrame(header: seq<byte>, m: CompiledMethod) {
    && |header| == HEADER_SIZE && Read32(header, 4) == Word(m.frameSize)
    && Read32(header, 8) == Word(m.coreSpillMask) && Read32(header, 12) == Word(m.fpSpillMask)
  }

  /** The header of m: the frame of the method that wrote it, the size of the code, and a table if m has one. */
  predicate HeaderFor(header: seq<byte>, m: CompiledMethod, writer: CompiledMethod) {
    DescribesFrame(header, writer) && Read32(header, 16) == |m.code| && (Read32(header, 0) == 0 <==> m.vmap == [])
  }

  /** The vmap field in front of a method's code leads to its table. */
  lemma FieldLeadsToTable(p: Passes, j: nat)
    requires j < |p.vs| && p.Valid()
    ensures var code, m, field := p.Code(j), p.vs[j].body, Word(Rebased(p.maps[|p.vs|].stored[j], p.Code(j)));
            && (field == 0 <==> m.vmap == [])
            && (m.vmap != [] ==> p.Table(Word(code - field), |m.vmap|) == m.vmap)
  {
    CodesFollowTables(p);
    FieldLeads(p.mapStart, p.prog, p.vs, p.maps, p.Codes(), p.mapsWritten, j);
    assert p.Codes()[j] == p.Code(j);
  }

  /**
   * From any compiled method's entry: its own patched code lies there, and the header in front of
   * the code leads to the method's own vmap table. The frame is that of the method f that wrote it.
   */
  lemma EntryLeadsToMethod(p: Passes, j: nat) returns (f: nat)
    requires j < |p.vs| && p.Valid() && p.NoBareThumbRepeat()
    ensures f <= j && First(p.cfg, p.vs, f) && (f == j || Shares(p.cfg, p.vs[f], p.vs[j]))
    ensures HeaderFor(p.Text(p.Code(j) - HEADER_SIZE, p.Code(j)), p.vs[j].body, p.vs[f].body)
    ensures var code, m := p.Code(j), p.vs[j].body;
            var header := p.Text(code - HEADER_SIZE, code);
            && p.Text(code, code + |m.code|) == Patched(m, code, p.resolve, |m.patches|)
            && (m.vmap != [] ==> p.Table(Word(code - Read32(header, 0)), |m.vmap|) == m.vmap)
  {
    FieldLeadsToTable(p, j);
    f := BlobInPlace(p, j);
    CodeBounds(p, j);
    HeaderFields(HeaderOf(p.vs[f].body, p.maps[|p.vs|].stored[j], p.Code(j)));
    WordOf(|p.vs[j].body.code|, |p.vs[j].body.code|, 0);
  }

  predicate SameFrame(a: CompiledMethod, b: CompiledMethod) {
    Word(a.frameSize) == Word(b.frameSize) && Word(a.coreSpillMask) == Word(b.coreSpillMask)
    && Word(a.fpSpillMask) == Word(b.fpSpillMask)
  }

  /**
   * Frame information is not part of what decides about sharing: the header in front of a
   * method's code describes the method's own frame if and only if the first method with that code
   * has the same frame.
   */
  lemma HeaderIsOwn(p: Passes, j: nat) returns (f: nat)
    requires j < |p.vs| && p.Valid() && p.NoBareThumbRepeat()
    ensures f <= j && First(p.cfg, p.vs, f) && (f == j || Shares(p.cfg, p.vs[f], p.vs[j]))
    ensures DescribesFrame(p.Text(p.Code(j) - HEADER_SIZE, p.Code(j)), p.vs[j].body)
            <==> SameFrame(p.vs[f].body, p.vs[j].body)
  {
    f := EntryLeadsToMethod(p, j);
  }

  /** A method with one instruction byte and the given frame size. */
  function Tiny(frameSize: nat): CompiledMethod {
    CompiledMethod(X86_64, 1, [0xc3], 0, [], 0, [], frameSize, 0, 0)
  }

  /** Two methods with equal code and different frames: the second one finds the first one's frame. */
  lemma FrameOfAnotherMethod(p: Passes)
    requires p.Valid() && !p.cfg.debuggable
    requires p.vs == [Visit(0, 0, MethodRef(0, 0), Tiny(16)), Visit(0, 1, MethodRef(0, 1), Tiny(32))]
    ensures !DescribesFrame(p.Text(p.Code(1) - HEADER_SIZE, p.Code(1)), p.vs[1].body)
  {
    assert Shares(p.cfg, p.vs[0], p.vs[1]);
    var f := HeaderIsOwn(p, 1);
    assert f == 0;
    WordOf(16, 16, 0);
    WordOf(32, 32, 0);
  }

  /** Thumb2 code that is empty and visited twice is a bare repeat. */
  lemma BareThumbExample(cfg: Config, vs: seq<Visit>)
    requires !cfg.debuggable
    requires var empty := CompiledMethod(Thumb2, 0, [], 1, [7], 0, [], 0, 0, 0);
             vs == [Visit(0, 0, MethodRef(0, 0), empty), Visit(0, 1, MethodRef(0, 1), empty)]
    ensures BareThumbRepeat(cfg, vs, 1)
  {
    assert Shares(cfg, vs[0], vs[1]) && First(cfg, vs, 0);
  }
}
