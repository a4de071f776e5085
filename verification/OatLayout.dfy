/**
 * Where compiled code goes in the oat file (compiler/oat_writer.cc, compiler/linker/arm): every
 * visited method gets a code entry, methods with the same code share one blob, and room is
 * reserved for call thunks.
 */
module OatLayout {
  import opened Align
  import opened OatTypes

  /** sizeof(OatQuickMethodHeader): the vmap table offset, three words of frame info, the code size. */
  const HEADER_SIZE: nat := 20

  /** The methods' code may begin at offset `start`; patch locations count from `executable`. */
  datatype Config = Config(debuggable: bool, thunkIsa: InstructionSet, thunk: seq<byte>,
                           executable: nat, start: nat)

  datatype CodeKey = CodeKey(codeId: nat, vmapId: nat, patchesId: nat)

  function KeyOf(m: CompiledMethod): CodeKey {
    CodeKey(m.codeId, m.vmapId, m.patchesId)
  }

  /** Whether a visit of b reuses the code laid out for a. */
  predicate Shares(cfg: Config, a: Visit, b: Visit) {
    if cfg.debuggable then a.ref == b.ref && a.body.code != [] else KeyOf(a.body) == KeyOf(b.body)
  }

  /** No visit before the i-th has laid out its code. */
  ghost predicate First(cfg: Config, vs: seq<Visit>, i: nat)
    requires i < |vs|
  {
    forall j :: 0 <= j < i ==> !Shares(cfg, vs[j], vs[i])
  }

  // -- The layout pass

  /** entries and novel have one element for each visit so far. */
  datatype Layout = Layout(offset: nat, dedupe: map<CodeKey, nat>, targets: map<MethodRef, nat>,
                           thunks: seq<nat>, locations: seq<int>, entries: seq<nat>, novel: seq<bool>)

  function Padding(offset: nat, isa: InstructionSet): (p: nat)
    ensures p < isa.Mod() && (offset + p + HEADER_SIZE) % isa.Mod() == isa.Residue()
  {
    isa.AlignCode(offset + HEADER_SIZE) - (offset + HEADER_SIZE)
  }

  /** The relative patcher decides freely whether a thunk is needed in front of new code. */
  function ReserveSpace(cfg: Config, s: Layout, need: bool): (r: Layout)
    ensures r.offset >= s.offset
  {
    if need then
      var at := cfg.thunkIsa.AlignCode(s.offset);
      s.(offset := at + |cfg.thunk|, thunks := s.thunks + [at])
    else s
  }

  function Known(cfg: Config, s: Layout, v: Visit): Option<nat> {
    if cfg.debuggable then (if v.ref in s.targets then Some(s.targets[v.ref]) else None)
    else (if KeyOf(v.body) in s.dedupe then Some(s.dedupe[KeyOf(v.body)]) else None)
  }

  /** SetOffset: calls to the method go to its first definition. */
  function Remember(targets: map<MethodRef, nat>, v: Visit, entry: nat): map<MethodRef, nat> {
    if v.body.code != [] && v.ref !in targets then targets[v.ref := entry] else targets
  }

  /** Where the absolute patches among the first k lie, for code at `base`. */
  function PatchLocations(base: int, patches: seq<LinkerPatch>, k: nat): seq<int>
    requires k <= |patches|
  {
    if k == 0 then []
    else
      var before := PatchLocations(base, patches, k - 1);
      if patches[k - 1].IsPcRelative() then before else before + [base + patches[k - 1].literalOffset]
  }

  /** Makes room for new code: the offset is that of its header. */
  function Created(cfg: Config, s: Layout, v: Visit, need: bool): Layout {
    var r := ReserveSpace(cfg, s, need);
    var header := r.offset + Padding(r.offset, v.body.isa);
    r.(offset := header,
       dedupe := if cfg.debuggable then s.dedupe else s.dedupe[KeyOf(v.body) := EntryAt(v, header)])
  }

  /** The entry of code whose header is at `header`. */
  function EntryAt(v: Visit, header: nat): nat {
    header + HEADER_SIZE + v.body.isa.CodeDelta()
  }

  /** Moves on behind the new code whose header is at s.offset. */
  function Passed(cfg: Config, s: Layout, v: Visit): Layout {
    var code, entry := s.offset + HEADER_SIZE, EntryAt(v, s.offset);
    s.(offset := code + |v.body.code|, targets := Remember(s.targets, v, entry),
       locations := s.locations + PatchLocations(code - cfg.executable, v.body.patches, |v.body.patches|),
       entries := s.entries + [entry], novel := s.novel + [true])
  }

  function LayoutStep(cfg: Config, s: Layout, v: Visit, need: bool): Layout {
    match Known(cfg, s, v)
    case Some(entry) =>
      s.(targets := Remember(s.targets, v, entry), entries := s.entries + [entry], novel := s.novel + [false])
    case None => Passed(cfg, Created(cfg, s, v, need), v)
  }

  ghost predicate LayoutStepAt(cfg: Config, vs: seq<Visit>, need: seq<bool>, run: seq<Layout>, i: nat)
    requires i < |vs| && i < |need| && i + 1 < |run|
  {
    run[i + 1] == LayoutStep(cfg, run[i], vs[i], need[i])
  }

  /** The states of the pass: run[i] before visit i; need[i] is the patcher's decision there. */
  ghost predicate LayoutRun(cfg: Config, vs: seq<Visit>, need: seq<bool>, run: seq<Layout>) {
    && |need| == |run| == |vs| + 1
    && run[0] == Layout(cfg.start, map[], map[], [], [], [], [])
    && forall i :: 0 <= i < |vs| ==> LayoutStepAt(cfg, vs, need, run, i)
  }

  /** The state at the end of the pass, when room for a last thunk may have been reserved. */
  function FinalLayout(cfg: Config, vs: seq<Visit>, need: seq<bool>, run: seq<Layout>): Layout
    requires |need| == |run| == |vs| + 1
  {
    ReserveSpace(cfg, run[|vs|], need[|vs|])
  }

  /** Start of the code of visit i. */
  function CodeStart(vs: seq<Visit>, s: Layout, i: nat): int
    requires i < |vs| && i < |s.entries|
  {
    s.entries[i] - vs[i].body.isa.CodeDelta()
  }

  /** What the table of shared code holds after n visits. */
  ghost predicate Deduped(vs: seq<Visit>, s: Layout, n: nat)
    requires n <= |vs|
  {
    && |s.entries| == n
    && (forall i :: 0 <= i < n ==>
          KeyOf(vs[i].body) in s.dedupe && s.dedupe[KeyOf(vs[i].body)] == s.entries[i])
    && (forall k :: k in s.dedupe ==> exists i :: 0 <= i < n && KeyOf(vs[i].body) == k)
  }

  /** What the patcher's table of call targets holds after n visits. */
  ghost predicate Targeted(vs: seq<Visit>, s: Layout, n: nat)
    requires n <= |vs|
  {
    && |s.entries| == n
    && (forall i :: 0 <= i < n && vs[i].body.code != [] ==>
          vs[i].ref in s.targets && s.targets[vs[i].ref] == s.entries[i])
    && (forall r :: r in s.targets ==> exists i :: 0 <= i < n && vs[i].ref == r && vs[i].body.code != [])
  }

  ghost predicate Recorded(cfg: Config, vs: seq<Visit>, s: Layout, n: nat)
    requires n <= |vs|
  {
    (cfg.debuggable || Deduped(vs, s, n)) && Targeted(vs, s, n)
  }

  /** The lookup succeeds exactly when the code is shared, and then gives the shared entry. */
  lemma KnownIsShared(cfg: Config, vs: seq<Visit>, s: Layout, n: nat)
    requires n < |vs| && Recorded(cfg, vs, s, n)
    ensures Known(cfg, s, vs[n]).None? <==> First(cfg, vs, n)
    ensures forall i :: 0 <= i < n && Shares(cfg, vs[i], vs[n]) ==> Known(cfg, s, vs[n]) == Some(s.entries[i])
  {
    if Known(cfg, s, vs[n]).Some? {
      if cfg.debuggable {
        var i :| 0 <= i < n && vs[i].ref == vs[n].ref && vs[i].body.code != [];
        assert Shares(cfg, vs[i], vs[n]);
      } else {
        var i :| 0 <= i < n && KeyOf(vs[i].body) == KeyOf(vs[n].body);
        assert Shares(cfg, vs[i], vs[n]);
      }
    }
  }

  lemma DedupedStep(vs: seq<Visit>, s: Layout, t: Layout, n: nat)
    requires n < |vs| && Deduped(vs, s, n)
    requires |t.entries| == n + 1 && t.entries[..n] == s.entries
    requires t.dedupe == if KeyOf(vs[n].body) in s.dedupe then s.dedupe
                         else s.dedupe[KeyOf(vs[n].body) := t.entries[n]]
    requires KeyOf(vs[n].body) in s.dedupe ==> t.entries[n] == s.dedupe[KeyOf(vs[n].body)]
    ensures Deduped(vs, t, n + 1)
  {
    forall i | 0 <= i < n + 1
      ensures KeyOf(vs[i].body) in t.dedupe && t.dedupe[KeyOf(vs[i].body)] == t.entries[i]
    {
      assert i < n ==> t.entries[i] == s.entries[i];
    }
    forall k | k in t.dedupe ensures exists i :: 0 <= i < n + 1 && KeyOf(vs[i].body) == k {
      if k in s.dedupe {
        var i :| 0 <= i < n && KeyOf(vs[i].body) == k;
      } else {
        assert KeyOf(vs[n].body) == k;
      }
    }
  }

  lemma TargetedStep(vs: seq<Visit>, s: Layout, t: Layout, n: nat)
    requires n < |vs| && Targeted(vs, s, n)
    requires |t.entries| == n + 1 && t.entries[..n] == s.entries
    requires t.targets == Remember(s.targets, vs[n], t.entries[n])
    requires vs[n].ref in s.targets && vs[n].body.code != [] ==> t.entries[n] == s.targets[vs[n].ref]
    ensures Targeted(vs, t, n + 1)
  {
    forall i | 0 <= i < n + 1 && vs[i].body.code != []
      ensures vs[i].ref in t.targets && t.targets[vs[i].ref] == t.entries[i]
    {
      assert i < n ==> t.entries[i] == s.entries[i];
    }
    forall r | r in t.targets
      ensures exists i :: 0 <= i < n + 1 && vs[i].ref == r && vs[i].body.code != []
    {
      if r in s.targets {
        var i :| 0 <= i < n && vs[i].ref == r && vs[i].body.code != [];
      } else {
        assert vs[n].ref == r;
      }
    }
  }

  /** A method that already is a call target gets the same entry again. */
  lemma SameTarget(cfg: Config, prog: Program, vs: seq<Visit>, s: Layout, n: nat)
    requires n < |vs| && Linked(prog, vs) && Recorded(cfg, vs, s, n)
    requires vs[n].ref in s.targets
    ensures Known(cfg, s, vs[n]) == Some(s.targets[vs[n].ref])
  {
    var j :| 0 <= j < n && vs[j].ref == vs[n].ref && vs[j].body.code != [];
    assert prog.Has(vs[j]) && prog.Has(vs[n]);
  }

  /** How one step changes the tables. */
  lemma StepTables(cfg: Config, s: Layout, v: Visit, need: bool)
    ensures var t := LayoutStep(cfg, s, v, need);
            && |t.entries| == |s.entries| + 1 && t.entries[..|s.entries|] == s.entries
            && t.targets == Remember(s.targets, v, t.entries[|s.entries|])
            && (Known(cfg, s, v).Some? ==> t.entries[|s.entries|] == Known(cfg, s, v).value)
            && (!cfg.debuggable ==>
                  t.dedupe == if KeyOf(v.body) in s.dedupe then s.dedupe
                              else s.dedupe[KeyOf(v.body) := t.entries[|s.entries|]])
  {
  }

  lemma RecordedStep(cfg: Config, prog: Program, vs: seq<Visit>, s: Layout, n: nat, need: bool)
    requires n < |vs| && Linked(prog, vs) && Recorded(cfg, vs, s, n)
    ensures Recorded(cfg, vs, LayoutStep(cfg, s, vs[n], need), n + 1)
  {
    StepTables(cfg, s, vs[n], need);
    var t := LayoutStep(cfg, s, vs[n], need);
    if !cfg.debuggable {
      DedupedStep(vs, s, t, n);
    }
    if vs[n].ref in s.targets {
      SameTarget(cfg, prog, vs, s, n);
    }
    TargetedStep(vs, s, t, n);
  }

  lemma {:induction false} LayoutRecorded(cfg: Config, prog: Program, vs: seq<Visit>, need: seq<bool>,
                                          run: seq<Layout>, n: nat)
    requires n <= |vs| && Linked(prog, vs) && LayoutRun(cfg, vs, need, run)
    ensures Recorded(cfg, vs, run[n], n)
  {
    if n > 0 {
      LayoutRecorded(cfg, prog, vs, need, run, n - 1);
      assert LayoutStepAt(cfg, vs, need, run, n - 1);
      RecordedStep(cfg, prog, vs, run[n - 1], n - 1, need[n - 1]);
    }
  }

  // -- Where the blobs lie

  function CodeEnd(vs: seq<Visit>, s: Layout, i: nat): int
    requires i < |vs| && i < |s.entries|
  {
    CodeStart(vs, s, i) + |vs[i].body.code|
  }

  /** The code for v is aligned, has room for its header and ends at or before `offset`. */
  predicate PlacedAt(cfg: Config, v: Visit, entry: nat, offset: nat) {
    var code := entry - v.body.isa.CodeDelta();
    && cfg.start + HEADER_SIZE <= code && code + |v.body.code| <= offset
    && code % v.body.isa.Mod() == v.body.isa.Residue()
  }

  ghost predicate Placed(cfg: Config, vs: seq<Visit>, s: Layout, n: nat)
    requires n <= |vs|
  {
    && |s.entries| == n && cfg.start <= s.offset
    && forall i :: 0 <= i < n ==> PlacedAt(cfg, vs[i], s.entries[i], s.offset)
  }

  /** Code laid out for the first time goes, header included, after everything before it. */
  ghost predicate Separate(vs: seq<Visit>, s: Layout, n: nat)
    requires n <= |vs| && |s.entries| == |s.novel| == n
  {
    forall i, j :: 0 <= i < j < n && s.novel[j] ==> CodeEnd(vs, s, i) + HEADER_SIZE <= CodeStart(vs, s, j)
  }

  /** Shared code has the size and the instruction set of the first copy. */
  lemma SharedBody(cfg: Config, prog: Program, a: Visit, b: Visit)
    requires prog.Has(a) && prog.Has(b) && Shares(cfg, a, b)
    ensures a.body.isa == b.body.isa && a.body.code == b.body.code && a.body.vmap == b.body.vmap
  {
  }

  /** New code goes behind everything laid out so far. */
  lemma NewEntry(cfg: Config, s: Layout, v: Visit, need: bool)
    requires cfg.start <= s.offset && Known(cfg, s, v).None?
    ensures var t := LayoutStep(cfg, s, v, need);
            var entry := t.entries[|s.entries|];
            PlacedAt(cfg, v, entry, t.offset) && s.offset + HEADER_SIZE <= entry - v.body.isa.CodeDelta()
            && t.offset >= s.offset
  {
  }

  /** The entry that the n-th visit finds, if any, is that of an earlier visit with the same code. */
  lemma KnownFrom(cfg: Config, prog: Program, vs: seq<Visit>, need: seq<bool>, run: seq<Layout>, n: nat)
    returns (i: nat)
    requires n < |vs| && Linked(prog, vs) && LayoutRun(cfg, vs, need, run)
    ensures var known := Known(cfg, run[n], vs[n]);
            && |run[n].entries| == n && (known.None? <==> First(cfg, vs, n))
            && (known.Some? ==> i < n && Shares(cfg, vs[i], vs[n]) && known.value == run[n].entries[i])
  {
    LayoutRecorded(cfg, prog, vs, need, run, n);
    KnownIsShared(cfg, vs, run[n], n);
    i := 0;
    if !First(cfg, vs, n) {
      i :| 0 <= i < n && Shares(cfg, vs[i], vs[n]);
    }
  }

  /** i is the visit that v shares its code with, if it does. */
  lemma PlacedStep(cfg: Config, prog: Program, vs: seq<Visit>, s: Layout, n: nat, need: bool, i: nat)
    requires n < |vs| && prog.Has(vs[n]) && Placed(cfg, vs, s, n)
    requires Known(cfg, s, vs[n]).Some? ==>
               i < n && prog.Has(vs[i]) && Shares(cfg, vs[i], vs[n])
               && Known(cfg, s, vs[n]).value == s.entries[i]
    ensures Placed(cfg, vs, LayoutStep(cfg, s, vs[n], need), n + 1)
  {
    StepTables(cfg, s, vs[n], need);
    var t := LayoutStep(cfg, s, vs[n], need);
    if Known(cfg, s, vs[n]).None? {
      NewEntry(cfg, s, vs[n], need);
    } else {
      SharedBody(cfg, prog, vs[i], vs[n]);
      assert PlacedAt(cfg, vs[i], s.entries[i], s.offset);
    }
    forall j | 0 <= j < n ensures PlacedAt(cfg, vs[j], t.entries[j], t.offset) {
      assert t.entries[j] == s.entries[j] && PlacedAt(cfg, vs[j], s.entries[j], s.offset);
    }
  }

  lemma {:induction false} LayoutPlaced(cfg: Config, prog: Program, vs: seq<Visit>, need: seq<bool>,
                                        run: seq<Layout>, n: nat)
    requires n <= |vs| && Linked(prog, vs) && LayoutRun(cfg, vs, need, run)
    ensures Placed(cfg, vs, run[n], n)
  {
    if n > 0 {
      LayoutPlaced(cfg, prog, vs, need, run, n - 1);
      assert LayoutStepAt(cfg, vs, need, run, n - 1);
      var i := KnownFrom(cfg, prog, vs, need, run, n - 1);
      PlacedStep(cfg, prog, vs, run[n - 1], n - 1, need[n - 1], i);
    }
  }

  lemma StepNovel(cfg: Config, s: Layout, v: Visit, need: bool)
    ensures LayoutStep(cfg, s, v, need).novel == s.novel + [Known(cfg, s, v).None?]
  {
  }

  /** The layout pass takes code to be new exactly at its first visit. */
  lemma {:induction false} NovelIsFirst(cfg: Config, prog: Program, vs: seq<Visit>, need: seq<bool>,
                                        run: seq<Layout>, n: nat)
    requires n <= |vs| && Linked(prog, vs) && LayoutRun(cfg, vs, need, run)
    ensures |run[n].novel| == n && forall i :: 0 <= i < n ==> (run[n].novel[i] <==> First(cfg, vs, i))
  {
    if n > 0 {
      NovelIsFirst(cfg, prog, vs, need, run, n - 1);
      assert LayoutStepAt(cfg, vs, need, run, n - 1);
      var _ := KnownFrom(cfg, prog, vs, need, run, n - 1);
      StepNovel(cfg, run[n - 1], vs[n - 1], need[n - 1]);
    }
  }

  lemma SeparateStep(cfg: Config, vs: seq<Visit>, s: Layout, n: nat, need: bool)
    requires n < |vs| && Placed(cfg, vs, s, n) && |s.novel| == n && Separate(vs, s, n)
    ensures var t := LayoutStep(cfg, s, vs[n], need);
            |t.entries| == |t.novel| == n + 1 && Separate(vs, t, n + 1)
  {
    var t := LayoutStep(cfg, s, vs[n], need);
    forall i, j | 0 <= i < j < n + 1 && t.novel[j]
      ensures CodeEnd(vs, t, i) + HEADER_SIZE <= CodeStart(vs, t, j)
    {
      assert t.entries[i] == s.entries[i] && PlacedAt(cfg, vs[i], s.entries[i], s.offset);
      if j < n {
        assert s.novel[j] && CodeEnd(vs, s, i) + HEADER_SIZE <= CodeStart(vs, s, j);
      } else {
        NewEntry(cfg, s, vs[n], need);
      }
    }
  }

  /** Distinct blobs never overlap. */
  lemma {:induction false} LayoutSeparate(cfg: Config, prog: Program, vs: seq<Visit>, need: seq<bool>,
                                          run: seq<Layout>, n: nat)
    requires n <= |vs| && Linked(prog, vs) && LayoutRun(cfg, vs, need, run)
    ensures |run[n].entries| == |run[n].novel| == n && Separate(vs, run[n], n)
  {
    if n > 0 {
      LayoutSeparate(cfg, prog, vs, need, run, n - 1);
      LayoutPlaced(cfg, prog, vs, need, run, n - 1);
      assert LayoutStepAt(cfg, vs, need, run, n - 1);
      SeparateStep(cfg, vs, run[n - 1], n - 1, need[n - 1]);
    }
  }

  /** Methods that share code have the same entry. */
  lemma SharedEntry(cfg: Config, prog: Program, vs: seq<Visit>, need: seq<bool>, run: seq<Layout>, i: nat, j: nat)
    requires i < j < |vs| && Linked(prog, vs) && LayoutRun(cfg, vs, need, run) && Shares(cfg, vs[i], vs[j])
    ensures var s := run[|vs|]; |s.entries| == |vs| && s.entries[i] == s.entries[j]
  {
    LayoutRecorded(cfg, prog, vs, need, run, |vs|);
    if cfg.debuggable {
      assert prog.Has(vs[i]) && prog.Has(vs[j]);
    }
  }

  /** t continues the layout s; the next thunk after s lies at or after s's offset. */
  ghost predicate Continues(s: Layout, t: Layout) {
    && s.offset <= t.offset && s.entries <= t.entries && s.thunks <= t.thunks && s.novel <= t.novel
    && (|s.thunks| < |t.thunks| ==> t.thunks[|s.thunks|] >= s.offset)
  }

  lemma ContinuesTrans(r: Layout, s: Layout, t: Layout)
    requires Continues(r, s) && Continues(s, t)
    ensures Continues(r, t)
  {
    assert |r.thunks| < |s.thunks| ==> t.thunks[|r.thunks|] == s.thunks[|r.thunks|];
  }

  lemma StepContinues(cfg: Config, s: Layout, v: Visit, need: bool)
    ensures Continues(s, LayoutStep(cfg, s, v, need))
  {
  }

  lemma {:induction false} RunContinues(cfg: Config, vs: seq<Visit>, need: seq<bool>, run: seq<Layout>,
                                        m: nat, n: nat)
    requires m <= n <= |vs| && LayoutRun(cfg, vs, need, run)
    ensures Continues(run[m], run[n])
    decreases n - m
  {
    if m < n {
      RunContinues(cfg, vs, need, run, m, n - 1);
      assert LayoutStepAt(cfg, vs, need, run, n - 1);
      StepContinues(cfg, run[n - 1], vs[n - 1], need[n - 1]);
      ContinuesTrans(run[m], run[n - 1], run[n]);
    }
  }

  lemma FinalContinues(cfg: Config, vs: seq<Visit>, need: seq<bool>, run: seq<Layout>, n: nat)
    requires n <= |vs| && LayoutRun(cfg, vs, need, run)
    ensures Continues(run[n], FinalLayout(cfg, vs, need, run))
  {
    RunContinues(cfg, vs, need, run, n, |vs|);
    ContinuesTrans(run[n], run[|vs|], FinalLayout(cfg, vs, need, run));
  }

  // -- Patch locations

  /** A method's patches are in order and lie inside its code. */
  predicate PatchesFit(m: CompiledMethod) {
    && (forall i :: 0 <= i < |m.patches| ==> m.patches[i].literalOffset + 4 <= |m.code|)
    && (forall i, j :: 0 <= i < j < |m.patches| ==> m.patches[i].literalOffset <= m.patches[j].literalOffset)
  }

  /** In ascending order, with all elements from lo to hi. */
  ghost predicate Ascending(s: seq<int>, lo: int, hi: int) {
    && (forall i :: 0 <= i < |s| ==> lo <= s[i] <= hi)
    && (forall i, j :: 0 <= i < j < |s| ==> s[i] <= s[j])
  }

  lemma {:induction false} PatchLocationsAscend(base: int, m: CompiledMethod, k: nat)
    requires k <= |m.patches| && PatchesFit(m)
    ensures Ascending(PatchLocations(base, m.patches, k), base, base + |m.code|)
    ensures k > 0 ==> Ascending(PatchLocations(base, m.patches, k), base, base + m.patches[k - 1].literalOffset)
  {
    if k > 0 {
      PatchLocationsAscend(base, m, k - 1);
      if k > 1 {
        assert m.patches[k - 2].literalOffset <= m.patches[k - 1].literalOffset;
      }
    }
  }

  lemma AscendingAppend(a: seq<int>, b: seq<int>, lo: int, mid: int, hi: int)
    requires Ascending(a, lo, mid) && Ascending(b, mid, hi) && lo <= mid <= hi
    ensures Ascending(a + b, lo, hi)
  {
  }

  /** The recorded patch locations ascend over the whole two-sweep layout. */
  lemma {:induction false} LocationsAscend(cfg: Config, prog: Program, vs: seq<Visit>, need: seq<bool>,
                                           run: seq<Layout>, n: nat)
    requires n <= |vs| && Linked(prog, vs) && LayoutRun(cfg, vs, need, run)
    requires cfg.executable <= cfg.start
    requires forall i :: 0 <= i < |vs| ==> PatchesFit(vs[i].body)
    ensures cfg.start <= run[n].offset && Ascending(run[n].locations, 0, run[n].offset - cfg.executable)
  {
    if n > 0 {
      LocationsAscend(cfg, prog, vs, need, run, n - 1);
      assert LayoutStepAt(cfg, vs, need, run, n - 1);
      LocationsStep(cfg, run[n - 1], vs[n - 1], need[n - 1]);
    }
  }

  lemma LocationsStep(cfg: Config, s: Layout, v: Visit, need: bool)
    requires cfg.executable <= cfg.start <= s.offset && PatchesFit(v.body)
    requires Ascending(s.locations, 0, s.offset - cfg.executable)
    ensures var t := LayoutStep(cfg, s, v, need);
            s.offset <= t.offset && Ascending(t.locations, 0, t.offset - cfg.executable)
  {
    if Known(cfg, s, v).None? {
      var r := ReserveSpace(cfg, s, need);
      var base := r.offset + Padding(r.offset, v.body.isa) + HEADER_SIZE - cfg.executable;
      PatchLocationsAscend(base, v.body, |v.body.patches|);
      AscendingAppend(s.locations, PatchLocations(base, v.body.patches, |v.body.patches|),
                      0, base, base + |v.body.code|);
    }
  }

  /** The patches whose literal holds an address, or marks a place for one. */
  predicate Absolute(p: LinkerPatch) {
    !p.kind.CallRelative? && !p.kind.StringRelative? && !p.kind.DexCacheArray?
  }

  /** Patch k of the code at `base` is an absolute one at x. */
  predicate AbsoluteAt(base: int, patches: seq<LinkerPatch>, k: nat, x: int) {
    k < |patches| && Absolute(patches[k]) && x == base + patches[k].literalOffset
  }

  function CountAbsolute(patches: seq<LinkerPatch>): nat {
    if patches == [] then 0 else (if Absolute(patches[0]) then 1 else 0) + CountAbsolute(patches[1..])
  }

  lemma {:induction false} CountOneMore(patches: seq<LinkerPatch>, p: LinkerPatch)
    ensures CountAbsolute(patches + [p]) == CountAbsolute(patches) + if Absolute(p) then 1 else 0
    decreases patches
  {
    if patches == [] {
      assert patches + [p] == [p];
    } else {
      assert (patches + [p])[1..] == patches[1..] + [p];
      CountOneMore(patches[1..], p);
    }
  }

  /** Exactly the absolute patches are recorded, each once. */
  lemma {:induction false} PatchLocationsAre(base: int, patches: seq<LinkerPatch>, n: nat)
    requires n <= |patches|
    ensures |PatchLocations(base, patches, n)| == CountAbsolute(patches[..n])
    ensures forall x :: x in PatchLocations(base, patches, n) <==>
                          exists k :: 0 <= k < n && AbsoluteAt(base, patches, k, x)
  {
    if n > 0 {
      PatchLocationsAre(base, patches, n - 1);
      assert patches[..n] == patches[..n - 1] + [patches[n - 1]];
      CountOneMore(patches[..n - 1], patches[n - 1]);
      forall x | x in PatchLocations(base, patches, n)
        ensures exists k :: 0 <= k < n && AbsoluteAt(base, patches, k, x)
      {
        if x !in PatchLocations(base, patches, n - 1) {
          assert AbsoluteAt(base, patches, n - 1, x);
        }
      }
    }
  }

  /** Visit i lays out new code, whose patch k is an absolute one at x, counted from the executable part. */
  ghost predicate LocatedAt(cfg: Config, vs: seq<Visit>, entries: seq<nat>, i: nat, k: nat, x: int) {
    && i < |vs| && i < |entries| && First(cfg, vs, i)
    && AbsoluteAt(entries[i] - vs[i].body.isa.CodeDelta() - cfg.executable, vs[i].body.patches, k, x)
  }

  ghost predicate Located(cfg: Config, vs: seq<Visit>, entries: seq<nat>, n: nat, x: int) {
    exists i, k :: 0 <= i < n && LocatedAt(cfg, vs, entries, i, k, x)
  }

  /** The absolute patches of the code laid out by the first n visits. */
  ghost function CountLocations(cfg: Config, vs: seq<Visit>, n: nat): nat
    requires n <= |vs|
  {
    if n == 0 then 0
    else CountLocations(cfg, vs, n - 1) + if First(cfg, vs, n - 1) then CountAbsolute(vs[n - 1].body.patches) else 0
  }

  ghost predicate LocationsExact(cfg: Config, vs: seq<Visit>, s: Layout, n: nat)
    requires n <= |vs|
  {
    |s.locations| == CountLocations(cfg, vs, n) && forall x :: x in s.locations <==> Located(cfg, vs, s.entries, n, x)
  }

  /** A visit of known code records nothing. */
  lemma LocationsKept(cfg: Config, vs: seq<Visit>, s: Layout, t: Layout, n: nat)
    requires n < |vs| && |s.entries| == n && LocationsExact(cfg, vs, s, n) && !First(cfg, vs, n)
    requires t.locations == s.locations && |t.entries| == n + 1 && t.entries[..n] == s.entries
    ensures LocationsExact(cfg, vs, t, n + 1)
  {
    assert forall i, k, x :: 0 <= i < n ==>
        (LocatedAt(cfg, vs, t.entries, i, k, x) <==> LocatedAt(cfg, vs, s.entries, i, k, x));
    forall x ensures x in t.locations <==> Located(cfg, vs, t.entries, n + 1, x) {
      assert x in s.locations <==> Located(cfg, vs, s.entries, n, x);
    }
  }

  lemma LocationsGrow(cfg: Config, vs: seq<Visit>, s: Layout, t: Layout, n: nat, base: int)
    requires n < |vs| && |s.entries| == n && LocationsExact(cfg, vs, s, n) && First(cfg, vs, n)
    requires |t.entries| == n + 1 && t.entries[..n] == s.entries
    requires base == t.entries[n] - vs[n].body.isa.CodeDelta() - cfg.executable
    requires t.locations == s.locations + PatchLocations(base, vs[n].body.patches, |vs[n].body.patches|)
    ensures LocationsExact(cfg, vs, t, n + 1)
  {
    var patches := vs[n].body.patches;
    PatchLocationsAre(base, patches, |patches|);
    assert patches[..|patches|] == patches;
    assert forall i, k, x :: 0 <= i < n ==>
        (LocatedAt(cfg, vs, t.entries, i, k, x) <==> LocatedAt(cfg, vs, s.entries, i, k, x));
    forall x ensures x in t.locations <==> Located(cfg, vs, t.entries, n + 1, x) {
      assert x in s.locations <==> Located(cfg, vs, s.entries, n, x);
      assert forall k: nat :: AbsoluteAt(base, patches, k, x) <==> LocatedAt(cfg, vs, t.entries, n, k, x);
    }
  }

  /** The recorded locations are exactly those of the absolute patches of all code laid out, each once. */
  lemma {:induction false} LocationsAre(cfg: Config, prog: Program, vs: seq<Visit>, need: seq<bool>,
                                        run: seq<Layout>, n: nat)
    requires n <= |vs| && Linked(prog, vs) && LayoutRun(cfg, vs, need, run)
    ensures |run[n].entries| == n && LocationsExact(cfg, vs, run[n], n)
  {
    if n > 0 {
      var s, t, v := run[n - 1], run[n], vs[n - 1];
      LocationsAre(cfg, prog, vs, need, run, n - 1);
      LayoutRecorded(cfg, prog, vs, need, run, n - 1);
      KnownIsShared(cfg, vs, s, n - 1);
      assert LayoutStepAt(cfg, vs, need, run, n - 1);
      if First(cfg, vs, n - 1) {
        LocationsGrow(cfg, vs, s, t, n - 1, Created(cfg, s, v, need[n - 1]).offset + HEADER_SIZE - cfg.executable);
      } else {
        LocationsKept(cfg, vs, s, t, n - 1);
      }
    }
  }

  /** How many of the first n visits lay out new code with a thunk in front. */
  ghost function CountThunks(cfg: Config, vs: seq<Visit>, need: seq<bool>, n: nat): nat
    requires n <= |vs| && n <= |need|
  {
    if n == 0 then 0 else CountThunks(cfg, vs, need, n - 1) + if First(cfg, vs, n - 1) && need[n - 1] then 1 else 0
  }

  /** A thunk is reserved for new code that needs one, and at the end. */
  lemma {:induction false} ThunksAre(cfg: Config, prog: Program, vs: seq<Visit>, need: seq<bool>,
                                     run: seq<Layout>, n: nat)
    requires n <= |vs| && Linked(prog, vs) && LayoutRun(cfg, vs, need, run)
    ensures |run[n].thunks| == CountThunks(cfg, vs, need, n)
  {
    if n > 0 {
      ThunksAre(cfg, prog, vs, need, run, n - 1);
      LayoutRecorded(cfg, prog, vs, need, run, n - 1);
      KnownIsShared(cfg, vs, run[n - 1], n - 1);
      assert LayoutStepAt(cfg, vs, need, run, n - 1);
    }
  }
}
