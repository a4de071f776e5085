/**
 * Writing the code that OatLayout placed (compiler/oat_writer.cc). The write pass keeps no record
 * of what is shared: it takes a blob to be new when its entry is greater than the current offset,
 * and a thunk to be due when its location comes up.
 */
module OatWrite {
  import opened Align
  import opened OatTypes
  import opened OatLayout

  // -- The write pass

  /** Bytes written so far, from `start` on, and the size counters. */
  datatype Written = Written(offset: nat, nextThunk: nat, wrote: seq<bool>, out: seq<byte>,
                             sizeHeader: nat, sizeCode: nat, sizeAlignment: nat, sizeThunks: nat)

  function Zeros(n: nat): (z: seq<byte>)
    ensures |z| == n && forall i :: 0 <= i < n ==> z[i] == 0
  {
    seq(n, i => 0)
  }

  /** Writes the next thunk if this is its place. */
  function WriteThunks(cfg: Config, w: Written, thunks: seq<nat>): Written
    requires w.nextThunk <= |thunks|
  {
    var aligned := cfg.thunkIsa.AlignCode(w.offset);
    if w.nextThunk == |thunks| || aligned != thunks[w.nextThunk] then w
    else
      w.(offset := aligned + |cfg.thunk|, nextThunk := w.nextThunk + 1,
         out := w.out + Zeros(aligned - w.offset) + cfg.thunk,
         sizeAlignment := w.sizeAlignment + (aligned - w.offset), sizeThunks := w.sizeThunks + |cfg.thunk|)
  }

  /** What a visit may write: the header and the patched code of its method. */
  datatype Blob = Blob(header: seq<byte>, code: seq<byte>)

  ghost predicate BlobOf(v: Visit, b: Blob) {
    |b.header| == HEADER_SIZE && |b.code| == |v.body.code|
  }

  function WriteStep(cfg: Config, w: Written, v: Visit, entry: nat, b: Blob, thunks: seq<nat>): (r: Written)
    requires w.nextThunk <= |thunks|
    ensures r.nextThunk <= |thunks|
  {
    if entry > w.offset then
      var t := WriteThunks(cfg, w, thunks);
      var pad := Padding(t.offset, v.body.isa);
      t.(offset := t.offset + pad + HEADER_SIZE + |v.body.code|, wrote := w.wrote + [true],
         out := t.out + Zeros(pad) + b.header + b.code,
         sizeHeader := t.sizeHeader + HEADER_SIZE, sizeCode := t.sizeCode + |v.body.code|,
         sizeAlignment := t.sizeAlignment + pad)
    else w.(wrote := w.wrote + [false])
  }

  ghost predicate WriteStepAt(cfg: Config, vs: seq<Visit>, final: Layout, blobs: seq<Blob>,
                              run: seq<Written>, i: nat)
    requires i < |vs| && i < |final.entries| && i < |blobs| && i + 1 < |run|
  {
    run[i].nextThunk <= |final.thunks|
    && run[i + 1] == WriteStep(cfg, run[i], vs[i], final.entries[i], blobs[i], final.thunks)
  }

  /** The write pass uses the entries and the thunk locations of a layout, but not its lookup tables. */
  ghost predicate WriteRun(cfg: Config, vs: seq<Visit>, final: Layout, blobs: seq<Blob>, run: seq<Written>) {
    && |run| == |vs| + 1 && |final.entries| == |blobs| == |vs|
    && run[0] == Written(cfg.start, 0, [], [], 0, 0, 0, 0)
    && (forall i :: 0 <= i < |vs| ==> BlobOf(vs[i], blobs[i]))
    && (forall i :: 0 <= i < |vs| ==> WriteStepAt(cfg, vs, final, blobs, run, i))
    && (forall i :: 0 <= i <= |vs| ==> run[i].nextThunk <= |final.thunks|)
  }

  /** The state after the end-of-code step. */
  function FinalWrite(cfg: Config, final: Layout, last: Written): Written
    requires last.nextThunk <= |final.thunks|
  {
    WriteThunks(cfg, last, final.thunks)
  }

  /**
   * The visit of a shared Thumb2 method without any code, when nothing new was visited since the
   * last visit that laid out code, and that one laid out the shared copy.
   */
  ghost predicate BareThumbRepeat(cfg: Config, vs: seq<Visit>, j: nat)
    requires j < |vs|
  {
    && vs[j].body.isa.Thumb2? && vs[j].body.code == []
    && exists i :: 0 <= i < j && Shares(cfg, vs[i], vs[j]) && First(cfg, vs, i)
                   && forall m :: i < m <= j ==> !First(cfg, vs, m)
  }

  /** Compiled Thumb2 methods have code; methods without code are made for Arm instead. */
  predicate ThumbHasCode(prog: Program) {
    forall r :: r in prog.methods && prog.methods[r].isa.Thumb2? ==> prog.methods[r].code != []
  }

  lemma NoBareRepeat(cfg: Config, prog: Program, vs: seq<Visit>, j: nat)
    requires j < |vs| && Linked(prog, vs) && ThumbHasCode(prog)
    ensures !BareThumbRepeat(cfg, vs, j)
  {
    assert prog.Has(vs[j]);
  }

  /** The two passes are at the same place. */
  ghost predicate InStep(cfg: Config, s: Layout, w: Written) {
    && w.offset == s.offset && w.nextThunk == |s.thunks| && w.wrote == s.novel
    && cfg.start + |w.out| == w.offset
  }

  /** The write pass writes a thunk in front of new code exactly when one was reserved there. */
  lemma ThunksMatch(cfg: Config, s: Layout, v: Visit, need: bool, w: Written, final: Layout)
    requires InStep(cfg, s, w) && Known(cfg, s, v).None?
    requires Continues(LayoutStep(cfg, s, v, need), final)
    ensures w.nextThunk <= |final.thunks|
    ensures var t, r := WriteThunks(cfg, w, final.thunks), ReserveSpace(cfg, s, need);
            t.offset == r.offset && t.nextThunk == |r.thunks| && cfg.start + |t.out| == t.offset
            && t.wrote == w.wrote
  {
    var next := LayoutStep(cfg, s, v, need);
    assert next.thunks <= final.thunks;
    if need {
      assert next.thunks[|s.thunks|] == cfg.thunkIsa.AlignCode(s.offset);
    } else {
      assert next.offset >= s.offset + HEADER_SIZE > cfg.thunkIsa.AlignCode(s.offset);
    }
  }

  /** A visit that is no bare Thumb2 repeat keeps the passes in step. */
  lemma WriteInStep(cfg: Config, s: Layout, v: Visit, need: bool, w: Written, b: Blob, final: Layout)
    requires InStep(cfg, s, w) && BlobOf(v, b)
    requires Continues(LayoutStep(cfg, s, v, need), final)
    requires Known(cfg, s, v).Some? ==> Known(cfg, s, v).value <= s.offset
    ensures w.nextThunk <= |final.thunks|
    ensures var t := LayoutStep(cfg, s, v, need);
            InStep(cfg, t, WriteStep(cfg, w, v, t.entries[|s.entries|], b, final.thunks))
  {
    if Known(cfg, s, v).None? {
      ThunksMatch(cfg, s, v, need, w, final);
    }
  }

  lemma {:induction false} FirstSharer(cfg: Config, vs: seq<Visit>, i: nat, n: nat) returns (f: nat)
    requires i < n < |vs| && Shares(cfg, vs[i], vs[n])
    ensures f <= i && Shares(cfg, vs[f], vs[n]) && First(cfg, vs, f)
  {
    if First(cfg, vs, i) {
      f := i;
    } else {
      var j :| 0 <= j < i && Shares(cfg, vs[j], vs[i]);
      f := FirstSharer(cfg, vs, j, n);
    }
  }

  /** A visit finds the entry of any earlier visit that it shares code with. */
  lemma KnownAs(cfg: Config, prog: Program, vs: seq<Visit>, need: seq<bool>, run: seq<Layout>, i: nat, n: nat)
    requires i < n < |vs| && Linked(prog, vs) && LayoutRun(cfg, vs, need, run) && Shares(cfg, vs[i], vs[n])
    ensures |run[n].entries| == n && Known(cfg, run[n], vs[n]) == Some(run[n].entries[i])
  {
    LayoutRecorded(cfg, prog, vs, need, run, n);
    KnownIsShared(cfg, vs, run[n], n);
  }

  /** If new code was laid out after visit f, then f's code ends well before the current offset. */
  lemma NewSince(cfg: Config, prog: Program, vs: seq<Visit>, need: seq<bool>, run: seq<Layout>,
                 f: nat, m: nat, n: nat)
    requires f < m < n <= |vs| && Linked(prog, vs) && LayoutRun(cfg, vs, need, run) && First(cfg, vs, m)
    ensures |run[n].entries| == n && CodeEnd(vs, run[n], f) + HEADER_SIZE <= run[n].offset
  {
    NovelIsFirst(cfg, prog, vs, need, run, n);
    LayoutSeparate(cfg, prog, vs, need, run, n);
    LayoutPlaced(cfg, prog, vs, need, run, n);
    assert run[n].novel[m] && PlacedAt(cfg, vs[m], run[n].entries[m], run[n].offset);
    assert CodeEnd(vs, run[n], f) + HEADER_SIZE <= CodeStart(vs, run[n], m);
  }

  lemma NotBareRepeat(cfg: Config, vs: seq<Visit>, f: nat, n: nat) returns (m: nat)
    requires f < n < |vs| && Shares(cfg, vs[f], vs[n]) && First(cfg, vs, f) && !BareThumbRepeat(cfg, vs, n)
    requires vs[n].body.isa.Thumb2? && vs[n].body.code == []
    ensures f < m < n && First(cfg, vs, m)
  {
    m :| f < m <= n && First(cfg, vs, m);
  }

  lemma EndOf(cfg: Config, prog: Program, vs: seq<Visit>, need: seq<bool>, run: seq<Layout>, i: nat, n: nat)
    requires i < n <= |vs| && Linked(prog, vs) && LayoutRun(cfg, vs, need, run)
    ensures |run[n].entries| == n && CodeEnd(vs, run[n], i) <= run[n].offset
  {
    LayoutPlaced(cfg, prog, vs, need, run, n);
    assert PlacedAt(cfg, vs[i], run[n].entries[i], run[n].offset);
  }

  /** Found code lies behind the current offset, unless it is a bare Thumb2 repeat. */
  lemma KnownBehind(cfg: Config, prog: Program, vs: seq<Visit>, need: seq<bool>, run: seq<Layout>, n: nat)
    requires n < |vs| && Linked(prog, vs) && LayoutRun(cfg, vs, need, run)
    requires Known(cfg, run[n], vs[n]).Some? && !BareThumbRepeat(cfg, vs, n)
    ensures Known(cfg, run[n], vs[n]).value <= run[n].offset
  {
    var i := KnownFrom(cfg, prog, vs, need, run, n);
    var f := FirstSharer(cfg, vs, i, n);
    KnownAs(cfg, prog, vs, need, run, f, n);
    EndOf(cfg, prog, vs, need, run, f, n);
    assert prog.Has(vs[f]) && prog.Has(vs[n]);
    SharedBody(cfg, prog, vs[f], vs[n]);
    if vs[n].body.isa.Thumb2? && vs[n].body.code == [] {
      var m := NotBareRepeat(cfg, vs, f, n);
      NewSince(cfg, prog, vs, need, run, f, m, n);
    }
  }

  /** As long as there is no bare Thumb2 repeat, the write pass passes through the same offsets. */
  lemma {:induction false} Simulation(cfg: Config, prog: Program, vs: seq<Visit>, need: seq<bool>,
                                      run: seq<Layout>, blobs: seq<Blob>, wrun: seq<Written>, n: nat)
    requires n <= |vs| && Linked(prog, vs) && LayoutRun(cfg, vs, need, run)
    requires WriteRun(cfg, vs, FinalLayout(cfg, vs, need, run), blobs, wrun)
    requires forall j :: 0 <= j < n ==> !BareThumbRepeat(cfg, vs, j)
    ensures InStep(cfg, run[n], wrun[n])
  {
    if n > 0 {
      Simulation(cfg, prog, vs, need, run, blobs, wrun, n - 1);
      var final := FinalLayout(cfg, vs, need, run);
      assert LayoutStepAt(cfg, vs, need, run, n - 1) && WriteStepAt(cfg, vs, final, blobs, wrun, n - 1);
      FinalContinues(cfg, vs, need, run, n);
      var _ := KnownFrom(cfg, prog, vs, need, run, n - 1);
      assert final.entries[n - 1] == run[n].entries[n - 1];
      if Known(cfg, run[n - 1], vs[n - 1]).Some? {
        KnownBehind(cfg, prog, vs, need, run, n - 1);
      }
      WriteInStep(cfg, run[n - 1], vs[n - 1], need[n - 1], wrun[n - 1], blobs[n - 1], final);
    }
  }

  lemma {:induction false} WroteGrows(cfg: Config, vs: seq<Visit>, final: Layout, blobs: seq<Blob>,
                                      wrun: seq<Written>, m: nat, n: nat)
    requires m <= n <= |vs| && WriteRun(cfg, vs, final, blobs, wrun)
    ensures |wrun[n].wrote| == n && wrun[m].wrote <= wrun[n].wrote && wrun[m].out <= wrun[n].out
    decreases n
  {
    if m < n {
      WroteGrows(cfg, vs, final, blobs, wrun, m, n - 1);
      assert WriteStepAt(cfg, vs, final, blobs, wrun, n - 1);
    } else if n > 0 {
      WroteGrows(cfg, vs, final, blobs, wrun, m - 1, n - 1);
      assert WriteStepAt(cfg, vs, final, blobs, wrun, n - 1);
    }
  }

  /** Without anything new the layout stays where it is. */
  lemma {:induction false} NothingNew(cfg: Config, prog: Program, vs: seq<Visit>, need: seq<bool>,
                                      run: seq<Layout>, m: nat, n: nat)
    requires m <= n <= |vs| && Linked(prog, vs) && LayoutRun(cfg, vs, need, run)
    requires forall i :: m <= i < n ==> !First(cfg, vs, i)
    ensures run[n].offset == run[m].offset
    decreases n - m
  {
    if m < n {
      NothingNew(cfg, prog, vs, need, run, m, n - 1);
      assert LayoutStepAt(cfg, vs, need, run, n - 1);
      var _ := KnownFrom(cfg, prog, vs, need, run, n - 1);
    }
  }

  /** At a bare Thumb2 repeat the shared entry is one past the current offset. */
  lemma RepeatIsAhead(cfg: Config, prog: Program, vs: seq<Visit>, need: seq<bool>, run: seq<Layout>, n: nat)
    requires n < |vs| && Linked(prog, vs) && LayoutRun(cfg, vs, need, run) && BareThumbRepeat(cfg, vs, n)
    ensures !First(cfg, vs, n) && Known(cfg, run[n], vs[n]) == Some(run[n].offset + 1)
  {
    var i :| 0 <= i < n && Shares(cfg, vs[i], vs[n]) && First(cfg, vs, i)
             && forall m :: i < m <= n ==> !First(cfg, vs, m);
    NothingNew(cfg, prog, vs, need, run, i + 1, n);
    assert prog.Has(vs[i]) && prog.Has(vs[n]);
    SharedBody(cfg, prog, vs[i], vs[n]);
    FirstEnd(cfg, prog, vs, need, run, i);
    RunContinues(cfg, vs, need, run, i + 1, n);
    KnownAs(cfg, prog, vs, need, run, i, n);
  }

  /** The write pass looks at the entry that the layout pass recorded. */
  lemma FinalEntry(cfg: Config, prog: Program, vs: seq<Visit>, need: seq<bool>, run: seq<Layout>, n: nat)
    requires n < |vs| && Linked(prog, vs) && LayoutRun(cfg, vs, need, run)
    ensures var final := FinalLayout(cfg, vs, need, run);
            |run[n].entries| == n < |final.entries| && |run[n + 1].entries| == n + 1
            && final.entries[n] == run[n + 1].entries[n]
            && (Known(cfg, run[n], vs[n]).Some? ==> final.entries[n] == Known(cfg, run[n], vs[n]).value)
  {
    assert LayoutStepAt(cfg, vs, need, run, n);
    var _ := KnownFrom(cfg, prog, vs, need, run, n);
    FinalContinues(cfg, vs, need, run, n + 1);
    StepTables(cfg, run[n], vs[n], need[n]);
  }

  /** The write pass writes code again at a bare Thumb2 repeat that is reached in step. */
  lemma RepeatIsWritten(cfg: Config, prog: Program, vs: seq<Visit>, need: seq<bool>,
                        run: seq<Layout>, blobs: seq<Blob>, wrun: seq<Written>, n: nat)
    requires n < |vs| && Linked(prog, vs) && LayoutRun(cfg, vs, need, run)
    requires WriteRun(cfg, vs, FinalLayout(cfg, vs, need, run), blobs, wrun)
    requires InStep(cfg, run[n], wrun[n]) && BareThumbRepeat(cfg, vs, n)
    ensures |wrun[|vs|].wrote| == |vs| && wrun[|vs|].wrote[n] && !First(cfg, vs, n)
  {
    var final := FinalLayout(cfg, vs, need, run);
    RepeatIsAhead(cfg, prog, vs, need, run, n);
    FinalEntry(cfg, prog, vs, need, run, n);
    WroteAt(cfg, vs, final, blobs, wrun, n);
  }

  /** The n-th element of `wrote` is the n-th comparison. */
  lemma WroteAt(cfg: Config, vs: seq<Visit>, final: Layout, blobs: seq<Blob>, wrun: seq<Written>, n: nat)
    requires n < |vs| && WriteRun(cfg, vs, final, blobs, wrun)
    ensures |wrun[|vs|].wrote| == |vs| && (wrun[|vs|].wrote[n] <==> final.entries[n] > wrun[n].offset)
  {
    WroteGrows(cfg, vs, final, blobs, wrun, n, n);
    assert WriteStepAt(cfg, vs, final, blobs, wrun, n);
    assert wrun[n + 1].wrote == wrun[n].wrote + [final.entries[n] > wrun[n].offset];
    WroteGrows(cfg, vs, final, blobs, wrun, n + 1, |vs|);
  }

  lemma {:induction false} LeastRepeat(cfg: Config, vs: seq<Visit>, j: nat) returns (f: nat)
    requires j < |vs| && BareThumbRepeat(cfg, vs, j)
    ensures f <= j && BareThumbRepeat(cfg, vs, f) && forall i :: 0 <= i < f ==> !BareThumbRepeat(cfg, vs, i)
  {
    if i :| 0 <= i < j && BareThumbRepeat(cfg, vs, i) {
      f := LeastRepeat(cfg, vs, i);
    } else {
      f := j;
    }
  }

  /**
   * The offset comparison of the write pass recognises exactly the first visits, if and only if
   * the schedule has no bare Thumb2 repeat.
   */
  lemma WritesExactlyFirstVisits(cfg: Config, prog: Program, vs: seq<Visit>, need: seq<bool>,
                                 run: seq<Layout>, blobs: seq<Blob>, wrun: seq<Written>)
    requires Linked(prog, vs) && LayoutRun(cfg, vs, need, run)
    requires WriteRun(cfg, vs, FinalLayout(cfg, vs, need, run), blobs, wrun)
    ensures |wrun[|vs|].wrote| == |vs|
    ensures (forall i :: 0 <= i < |vs| ==> (wrun[|vs|].wrote[i] <==> First(cfg, vs, i)))
            <==> (forall j :: 0 <= j < |vs| ==> !BareThumbRepeat(cfg, vs, j))
  {
    WroteGrows(cfg, vs, FinalLayout(cfg, vs, need, run), blobs, wrun, 0, |vs|);
    if j :| 0 <= j < |vs| && BareThumbRepeat(cfg, vs, j) {
      var f := LeastRepeat(cfg, vs, j);
      Simulation(cfg, prog, vs, need, run, blobs, wrun, f);
      RepeatIsWritten(cfg, prog, vs, need, run, blobs, wrun, f);
    } else {
      Simulation(cfg, prog, vs, need, run, blobs, wrun, |vs|);
      NovelIsFirst(cfg, prog, vs, need, run, |vs|);
    }
  }

  // -- What the write pass leaves behind

  /** Both passes end at the same offset. */
  lemma SameEnd(cfg: Config, prog: Program, vs: seq<Visit>, need: seq<bool>,
                run: seq<Layout>, blobs: seq<Blob>, wrun: seq<Written>)
    requires Linked(prog, vs) && LayoutRun(cfg, vs, need, run)
    requires WriteRun(cfg, vs, FinalLayout(cfg, vs, need, run), blobs, wrun)
    requires forall j :: 0 <= j < |vs| ==> !BareThumbRepeat(cfg, vs, j)
    ensures InStep(cfg, FinalLayout(cfg, vs, need, run),
                   FinalWrite(cfg, FinalLayout(cfg, vs, need, run), wrun[|vs|]))
  {
    Simulation(cfg, prog, vs, need, run, blobs, wrun, |vs|);
  }

  /** After the first bare Thumb2 repeat the write pass is ahead by at least a header. */
  lemma RepeatRunsAhead(cfg: Config, prog: Program, vs: seq<Visit>, need: seq<bool>,
                        run: seq<Layout>, blobs: seq<Blob>, wrun: seq<Written>, n: nat)
    requires n < |vs| && Linked(prog, vs) && LayoutRun(cfg, vs, need, run)
    requires WriteRun(cfg, vs, FinalLayout(cfg, vs, need, run), blobs, wrun)
    requires BareThumbRepeat(cfg, vs, n) && forall j :: 0 <= j < n ==> !BareThumbRepeat(cfg, vs, j)
    ensures wrun[n + 1].offset >= run[n + 1].offset + HEADER_SIZE
  {
    var final := FinalLayout(cfg, vs, need, run);
    Simulation(cfg, prog, vs, need, run, blobs, wrun, n);
    RepeatIsAhead(cfg, prog, vs, need, run, n);
    FinalEntry(cfg, prog, vs, need, run, n);
    assert LayoutStepAt(cfg, vs, need, run, n) && WriteStepAt(cfg, vs, final, blobs, wrun, n);
  }

  function ThumbMethod(codeId: nat, code: seq<byte>): CompiledMethod {
    CompiledMethod(Thumb2, codeId, code, 1, [7], 0, [], 0, 0, 0)
  }

  /** A Thumb2 method without code, the same again, and two Thumb2 methods with two bytes each. */
  function RepeatVisits(): seq<Visit> {
    [Visit(0, 0, MethodRef(0, 0), ThumbMethod(0, [])), Visit(0, 1, MethodRef(0, 1), ThumbMethod(0, [])),
     Visit(0, 2, MethodRef(0, 2), ThumbMethod(1, [1, 1])), Visit(0, 3, MethodRef(0, 3), ThumbMethod(2, [2, 2]))]
  }

  function RepeatProgram(): Program {
    Program(map[MethodRef(0, 0) := ThumbMethod(0, []), MethodRef(0, 1) := ThumbMethod(0, []),
                MethodRef(0, 2) := ThumbMethod(1, [1, 1]), MethodRef(0, 3) := ThumbMethod(2, [2, 2])],
            map[0 := (Thumb2, []), 1 := (Thumb2, [1, 1]), 2 := (Thumb2, [2, 2])], map[1 := [7]], map[0 := []])
  }

  /** No thunks and no debugging, from the first page on. */
  ghost predicate RepeatSchedule(cfg: Config, vs: seq<Visit>, need: seq<bool>) {
    !cfg.debuggable && cfg.start == PAGE_SIZE && need == [false, false, false, false, false] && vs == RepeatVisits()
  }

  lemma RepeatHalfLaidOut(cfg: Config, vs: seq<Visit>, need: seq<bool>, run: seq<Layout>)
    requires RepeatSchedule(cfg, vs, need) && LayoutRun(cfg, vs, need, run)
    ensures run[2].offset == 4120 && run[2].entries == [4121, 4121] && run[2].thunks == []
    ensures run[2].dedupe == map[KeyOf(ThumbMethod(0, [])) := 4121]
  {
    assert LayoutStepAt(cfg, vs, need, run, 0) && run[1].offset == 4120 && run[1].entries == [4121];
    assert LayoutStepAt(cfg, vs, need, run, 1);
  }

  /** New code without a thunk in front. */
  lemma NewStep(cfg: Config, s: Layout, v: Visit)
    requires !cfg.debuggable && KeyOf(v.body) !in s.dedupe
    ensures var t, header := LayoutStep(cfg, s, v, false), s.offset + Padding(s.offset, v.body.isa);
            && t.offset == header + HEADER_SIZE + |v.body.code| && t.entries == s.entries + [EntryAt(v, header)]
            && t.thunks == s.thunks && t.dedupe == s.dedupe[KeyOf(v.body) := EntryAt(v, header)]
  {
  }

  lemma RepeatLaidOut(cfg: Config, vs: seq<Visit>, need: seq<bool>, run: seq<Layout>)
    requires RepeatSchedule(cfg, vs, need) && LayoutRun(cfg, vs, need, run)
    ensures var final := FinalLayout(cfg, vs, need, run);
            final.entries == [4121, 4121, 4145, 4169] && final.thunks == [] && final.offset == 4170
  {
    RepeatHalfLaidOut(cfg, vs, need, run);
    NewStep(cfg, run[2], vs[2]);
    assert LayoutStepAt(cfg, vs, need, run, 2) && run[3].offset == 4146;
    NewStep(cfg, run[3], vs[3]);
    assert LayoutStepAt(cfg, vs, need, run, 3);
  }

  lemma RepeatIsBare(cfg: Config, vs: seq<Visit>, need: seq<bool>)
    requires RepeatSchedule(cfg, vs, need)
    ensures Linked(RepeatProgram(), vs) && BareThumbRepeat(cfg, vs, 1) && First(cfg, vs, 3)
  {
    assert Shares(cfg, vs[0], vs[1]) && First(cfg, vs, 0) && !First(cfg, vs, 1);
  }

  lemma RepeatWritten(cfg: Config, vs: seq<Visit>, need: seq<bool>, final: Layout, blobs: seq<Blob>, wrun: seq<Written>)
    requires RepeatSchedule(cfg, vs, need) && WriteRun(cfg, vs, final, blobs, wrun)
    requires final.entries == [4121, 4121, 4145, 4169] && final.thunks == []
    ensures wrun[4].wrote == [true, true, true, false] && wrun[4].offset == 4170
  {
    assert WriteStepAt(cfg, vs, final, blobs, wrun, 0) && wrun[1].offset == 4120;
    assert WriteStepAt(cfg, vs, final, blobs, wrun, 1) && wrun[2].offset == 4144;
    assert WriteStepAt(cfg, vs, final, blobs, wrun, 2) && wrun[3].offset == 4170;
    assert WriteStepAt(cfg, vs, final, blobs, wrun, 3);
  }

  /** The end can be right nevertheless: the last method is then not written at all. */
  lemma EndsMayAgree(cfg: Config, vs: seq<Visit>, need: seq<bool>,
                     run: seq<Layout>, blobs: seq<Blob>, wrun: seq<Written>)
    requires RepeatSchedule(cfg, vs, need) && LayoutRun(cfg, vs, need, run)
    requires WriteRun(cfg, vs, FinalLayout(cfg, vs, need, run), blobs, wrun)
    ensures Linked(RepeatProgram(), vs) && BareThumbRepeat(cfg, vs, 1) && First(cfg, vs, 3)
    ensures wrun[4].wrote == [true, true, true, false]
    ensures wrun[4].offset == FinalLayout(cfg, vs, need, run).offset
  {
    RepeatIsBare(cfg, vs, need);
    RepeatLaidOut(cfg, vs, need, run);
    RepeatWritten(cfg, vs, need, FinalLayout(cfg, vs, need, run), blobs, wrun);
  }

  /** Every byte written is accounted for by exactly one counter, whatever the schedule. */
  ghost predicate Accounted(cfg: Config, w: Written) {
    && w.sizeHeader + w.sizeCode + w.sizeAlignment + w.sizeThunks == |w.out|
    && cfg.start + |w.out| == w.offset
  }

  lemma {:induction false} CountersAddUp(cfg: Config, vs: seq<Visit>, final: Layout, blobs: seq<Blob>,
                                         wrun: seq<Written>, n: nat)
    requires n <= |vs| && WriteRun(cfg, vs, final, blobs, wrun)
    ensures Accounted(cfg, wrun[n]) && Accounted(cfg, FinalWrite(cfg, final, wrun[n]))
  {
    if n > 0 {
      CountersAddUp(cfg, vs, final, blobs, wrun, n - 1);
      assert WriteStepAt(cfg, vs, final, blobs, wrun, n - 1);
      assert BlobOf(vs[n - 1], blobs[n - 1]);
    }
  }

  /** How many visits wrote their code. */
  function CountWritten(wrote: seq<bool>): nat {
    if wrote == [] then 0
    else CountWritten(wrote[..|wrote| - 1]) + if wrote[|wrote| - 1] then 1 else 0
  }

  /** The size of the code they wrote. */
  function CodeWritten(vs: seq<Visit>, wrote: seq<bool>): nat
    requires |wrote| <= |vs|
  {
    if wrote == [] then 0
    else CodeWritten(vs, wrote[..|wrote| - 1]) + if wrote[|wrote| - 1] then |vs[|wrote| - 1].body.code| else 0
  }

  /** What each counter counts: headers, code and thunks; the rest is alignment. */
  ghost predicate Counted(cfg: Config, vs: seq<Visit>, w: Written) {
    && |w.wrote| <= |vs| && w.sizeHeader == HEADER_SIZE * CountWritten(w.wrote)
    && w.sizeCode == CodeWritten(vs, w.wrote) && w.sizeThunks == |cfg.thunk| * w.nextThunk
  }

  lemma ThunksCounted(cfg: Config, vs: seq<Visit>, w: Written, thunks: seq<nat>)
    requires w.nextThunk <= |thunks| && Counted(cfg, vs, w)
    ensures Counted(cfg, vs, WriteThunks(cfg, w, thunks)) && WriteThunks(cfg, w, thunks).wrote == w.wrote
  {
    var t := WriteThunks(cfg, w, thunks);
    assert t.nextThunk == w.nextThunk + 1 ==> |cfg.thunk| * t.nextThunk == |cfg.thunk| * w.nextThunk + |cfg.thunk|;
  }

  lemma StepCounted(cfg: Config, vs: seq<Visit>, w: Written, entry: nat, b: Blob, thunks: seq<nat>)
    requires w.nextThunk <= |thunks| && Counted(cfg, vs, w) && |w.wrote| < |vs|
    ensures var r := WriteStep(cfg, w, vs[|w.wrote|], entry, b, thunks);
            Counted(cfg, vs, r) && |r.wrote| == |w.wrote| + 1
  {
    ThunksCounted(cfg, vs, w, thunks);
    var r := WriteStep(cfg, w, vs[|w.wrote|], entry, b, thunks);
    assert r.wrote[..|w.wrote|] == w.wrote;
  }

  lemma {:induction false} CountersAre(cfg: Config, vs: seq<Visit>, final: Layout, blobs: seq<Blob>,
                                       wrun: seq<Written>, n: nat)
    requires n <= |vs| && WriteRun(cfg, vs, final, blobs, wrun)
    ensures |wrun[n].wrote| == n && Counted(cfg, vs, wrun[n])
    ensures Counted(cfg, vs, FinalWrite(cfg, final, wrun[n]))
  {
    if n > 0 {
      CountersAre(cfg, vs, final, blobs, wrun, n - 1);
      assert WriteStepAt(cfg, vs, final, blobs, wrun, n - 1);
      StepCounted(cfg, vs, wrun[n - 1], final.entries[n - 1], blobs[n - 1], final.thunks);
    }
    ThunksCounted(cfg, vs, wrun[n], final.thunks);
  }

  /** The pieces of code laid out by the first n visits, and their size. */
  ghost function CountFirst(cfg: Config, vs: seq<Visit>, n: nat): nat
    requires n <= |vs|
  {
    if n == 0 then 0 else CountFirst(cfg, vs, n - 1) + if First(cfg, vs, n - 1) then 1 else 0
  }

  ghost function CodeOfFirst(cfg: Config, vs: seq<Visit>, n: nat): nat
    requires n <= |vs|
  {
    if n == 0 then 0
    else CodeOfFirst(cfg, vs, n - 1) + if First(cfg, vs, n - 1) then |vs[n - 1].body.code| else 0
  }

  lemma {:induction false} FirstCounted(cfg: Config, vs: seq<Visit>, wrote: seq<bool>, n: nat)
    requires n <= |wrote| <= |vs| && forall i :: 0 <= i < |wrote| ==> (wrote[i] <==> First(cfg, vs, i))
    ensures CountWritten(wrote[..n]) == CountFirst(cfg, vs, n)
    ensures CodeWritten(vs, wrote[..n]) == CodeOfFirst(cfg, vs, n)
  {
    if n > 0 {
      FirstCounted(cfg, vs, wrote, n - 1);
      assert wrote[..n][..n - 1] == wrote[..n - 1] && wrote[..n][n - 1] == wrote[n - 1];
    }
  }

  /** Without a repeat, headers and code are counted once for each piece of code. */
  lemma CountersInStep(cfg: Config, prog: Program, vs: seq<Visit>, need: seq<bool>,
                       run: seq<Layout>, blobs: seq<Blob>, wrun: seq<Written>)
    requires Linked(prog, vs) && LayoutRun(cfg, vs, need, run)
    requires WriteRun(cfg, vs, FinalLayout(cfg, vs, need, run), blobs, wrun)
    requires forall j :: 0 <= j < |vs| ==> !BareThumbRepeat(cfg, vs, j)
    ensures var final := FinalLayout(cfg, vs, need, run);
            var w := FinalWrite(cfg, final, wrun[|vs|]);
            && w.sizeHeader == HEADER_SIZE * CountFirst(cfg, vs, |vs|) && w.sizeCode == CodeOfFirst(cfg, vs, |vs|)
            && w.sizeThunks == |cfg.thunk| * |final.thunks|
            && |final.thunks| == CountThunks(cfg, vs, need, |vs|) + if need[|vs|] then 1 else 0
  {
    var final := FinalLayout(cfg, vs, need, run);
    CountersAre(cfg, vs, final, blobs, wrun, |vs|);
    WritesExactlyFirstVisits(cfg, prog, vs, need, run, blobs, wrun);
    WroteGrows(cfg, vs, final, blobs, wrun, |vs|, |vs|);
    FirstCounted(cfg, vs, wrun[|vs|].wrote, |vs|);
    assert wrun[|vs|].wrote[..|vs|] == wrun[|vs|].wrote;
    SameEnd(cfg, prog, vs, need, run, blobs, wrun);
    ThunksAre(cfg, prog, vs, need, run, |vs|);
  }

  /** Thunk k is in the output, aligned, where it was reserved. */
  ghost predicate ThunkIn(cfg: Config, thunks: seq<nat>, out: seq<byte>, k: nat) {
    && k < |thunks| && thunks[k] % cfg.thunkIsa.Mod() == cfg.thunkIsa.Residue()
    && cfg.start <= thunks[k] && thunks[k] + |cfg.thunk| <= cfg.start + |out|
    && out[thunks[k] - cfg.start..thunks[k] - cfg.start + |cfg.thunk|] == cfg.thunk
  }

  lemma ThunkKept(cfg: Config, thunks: seq<nat>, a: seq<byte>, b: seq<byte>, k: nat)
    requires ThunkIn(cfg, thunks, a, k) && a <= b
    ensures ThunkIn(cfg, thunks, b, k)
  {
    var at := thunks[k] - cfg.start;
    assert a == b[..|a|];
    assert b[at..at + |cfg.thunk|] == a[at..at + |cfg.thunk|];
  }

  ghost predicate ThunksIn(cfg: Config, thunks: seq<nat>, w: Written) {
    cfg.start + |w.out| == w.offset && forall k :: 0 <= k < w.nextThunk ==> ThunkIn(cfg, thunks, w.out, k)
  }

  lemma ThunkWritten(cfg: Config, w: Written, thunks: seq<nat>)
    requires w.nextThunk <= |thunks| && ThunksIn(cfg, thunks, w)
    ensures ThunksIn(cfg, thunks, WriteThunks(cfg, w, thunks)) && w.out <= WriteThunks(cfg, w, thunks).out
  {
    var t := WriteThunks(cfg, w, thunks);
    forall k | 0 <= k < t.nextThunk ensures ThunkIn(cfg, thunks, t.out, k) {
      if k < w.nextThunk {
        ThunkKept(cfg, thunks, w.out, t.out, k);
      }
    }
  }

  lemma {:induction false} ThunkBytes(cfg: Config, vs: seq<Visit>, final: Layout, blobs: seq<Blob>,
                                      wrun: seq<Written>, n: nat)
    requires n <= |vs| && WriteRun(cfg, vs, final, blobs, wrun)
    ensures ThunksIn(cfg, final.thunks, wrun[n]) && ThunksIn(cfg, final.thunks, FinalWrite(cfg, final, wrun[n]))
  {
    if n > 0 {
      var w, t := wrun[n - 1], wrun[n];
      ThunkBytes(cfg, vs, final, blobs, wrun, n - 1);
      assert WriteStepAt(cfg, vs, final, blobs, wrun, n - 1) && BlobOf(vs[n - 1], blobs[n - 1]);
      ThunkWritten(cfg, w, final.thunks);
      var u := WriteThunks(cfg, w, final.thunks);
      forall k | 0 <= k < t.nextThunk ensures ThunkIn(cfg, final.thunks, t.out, k) {
        ThunkKept(cfg, final.thunks, if final.entries[n - 1] > w.offset then u.out else w.out, t.out, k);
      }
    }
    ThunkWritten(cfg, wrun[n], final.thunks);
  }

  lemma WriteTail(cfg: Config, w: Written, v: Visit, entry: nat, b: Blob, thunks: seq<nat>)
    requires w.nextThunk <= |thunks| && entry > w.offset
    ensures var out := WriteStep(cfg, w, v, entry, b, thunks).out;
            var blob := b.header + b.code;
            |blob| <= |out| && out[|out| - |blob|..] == blob
  {
    var t := WriteThunks(cfg, w, thunks);
    var pad := Zeros(Padding(t.offset, v.body.isa));
    assert t.out + pad + b.header + b.code == (t.out + pad) + (b.header + b.code);
  }

  lemma SliceOfPrefix(a: seq<byte>, b: seq<byte>, from: nat)
    requires a <= b && from <= |a|
    ensures b[from..|a|] == a[from..]
  {
    assert a == b[..|a|];
  }

  /** The bytes [from, to) of the oat file, where `out` starts at offset cfg.start. */
  function Bytes(cfg: Config, out: seq<byte>, from: int, to: int): seq<byte> {
    if cfg.start <= from <= to <= cfg.start + |out| then out[from - cfg.start..to - cfg.start] else []
  }

  lemma BytesOfPrefix(cfg: Config, a: seq<byte>, b: seq<byte>, size: nat)
    requires a <= b && size <= |a|
    ensures Bytes(cfg, b, cfg.start + |a| - size, cfg.start + |a|) == a[|a| - size..]
  {
    SliceOfPrefix(a, b, |a| - size);
  }

  /** After a first visit the output ends with the header and the code. */
  lemma FirstVisitTail(cfg: Config, prog: Program, vs: seq<Visit>, need: seq<bool>,
                       run: seq<Layout>, blobs: seq<Blob>, wrun: seq<Written>, i: nat)
    requires i < |vs| && Linked(prog, vs) && LayoutRun(cfg, vs, need, run)
    requires WriteRun(cfg, vs, FinalLayout(cfg, vs, need, run), blobs, wrun)
    requires forall j :: 0 <= j < |vs| ==> !BareThumbRepeat(cfg, vs, j)
    requires First(cfg, vs, i)
    ensures var final, a, blob := FinalLayout(cfg, vs, need, run), wrun[i + 1].out, blobs[i].header + blobs[i].code;
            && |final.entries| == |vs| && |blob| == HEADER_SIZE + |vs[i].body.code|
            && |blob| <= |a| && a[|a| - |blob|..] == blob && cfg.start + |a| == CodeEnd(vs, final, i)
  {
    var final := FinalLayout(cfg, vs, need, run);
    Simulation(cfg, prog, vs, need, run, blobs, wrun, i);
    Simulation(cfg, prog, vs, need, run, blobs, wrun, i + 1);
    FinalEntry(cfg, prog, vs, need, run, i);
    FirstEnd(cfg, prog, vs, need, run, i);
    assert BlobOf(vs[i], blobs[i]) && WriteStepAt(cfg, vs, final, blobs, wrun, i);
    WriteTail(cfg, wrun[i], vs[i], final.entries[i], blobs[i], final.thunks);
  }

  /** New code and its header are written where the layout pass put them, and stay there. */
  lemma FirstVisitBytes(cfg: Config, prog: Program, vs: seq<Visit>, need: seq<bool>,
                        run: seq<Layout>, blobs: seq<Blob>, wrun: seq<Written>, i: nat)
    requires i < |vs| && Linked(prog, vs) && LayoutRun(cfg, vs, need, run)
    requires WriteRun(cfg, vs, FinalLayout(cfg, vs, need, run), blobs, wrun)
    requires forall j :: 0 <= j < |vs| ==> !BareThumbRepeat(cfg, vs, j)
    requires First(cfg, vs, i)
    ensures var final := FinalLayout(cfg, vs, need, run);
            |final.entries| == |vs| &&
            Bytes(cfg, wrun[|vs|].out, CodeStart(vs, final, i) - HEADER_SIZE, CodeEnd(vs, final, i))
            == blobs[i].header + blobs[i].code
  {
    var final := FinalLayout(cfg, vs, need, run);
    FirstVisitTail(cfg, prog, vs, need, run, blobs, wrun, i);
    WroteGrows(cfg, vs, final, blobs, wrun, i + 1, |vs|);
    BytesOfPrefix(cfg, wrun[i + 1].out, wrun[|vs|].out, |blobs[i].header + blobs[i].code|);
  }

  /** New code ends where the layout pass goes on. */
  lemma FirstEnd(cfg: Config, prog: Program, vs: seq<Visit>, need: seq<bool>, run: seq<Layout>, i: nat)
    requires i < |vs| && Linked(prog, vs) && LayoutRun(cfg, vs, need, run) && First(cfg, vs, i)
    ensures |run[i + 1].entries| == i + 1 && CodeEnd(vs, run[i + 1], i) == run[i + 1].offset
    ensures run[i + 1].entries[i] > run[i].offset
  {
    assert LayoutStepAt(cfg, vs, need, run, i);
    var _ := KnownFrom(cfg, prog, vs, need, run, i);
  }
}
