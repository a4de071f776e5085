/**
 * The vmap tables (compiler/oat_writer.cc, runtime/oat_quick_method_header.h).
 *
 * The layout pass stores a table's offset o in the method header as 0 - o, in 32 bits; laying out
 * the code adds the code's offset; the write pass subtracts the result from the code's offset and
 * takes the table to be new when that is the current position. At run time the same subtraction
 * finds the table from the code.
 */
module OatMaps {
  import opened OatTypes
  import opened Words

  /** stored has one element for each visit: what the header holds before the code is laid out. */
  datatype MapLayout = MapLayout(offset: nat, dedupe: map<nat, nat>, stored: seq<nat>)

  /** 0 - o in 32 bits. */
  function Negated(o: nat): (w: nat)
    ensures 0 < o < TWO32 ==> w == TWO32 - o
  {
    var i: int := o;
    assert 0 < o < TWO32 ==> Word(-i) == TWO32 - o by {
      if 0 < o < TWO32 {
        WordOf(TWO32 - o, -i, -1);
      }
    }
    Word(-i)
  }

  function MapStep(s: MapLayout, v: Visit): MapLayout {
    if v.body.vmap == [] then s.(stored := s.stored + [0])
    else if v.body.vmapId in s.dedupe then s.(stored := s.stored + [Negated(s.dedupe[v.body.vmapId])])
    else MapLayout(s.offset + |v.body.vmap|, s.dedupe[v.body.vmapId := s.offset],
                   s.stored + [Negated(s.offset)])
  }

  ghost predicate MapStepAt(vs: seq<Visit>, run: seq<MapLayout>, i: nat)
    requires i < |vs| && i + 1 < |run|
  {
    run[i + 1] == MapStep(run[i], vs[i])
  }

  ghost predicate MapRun(start: nat, vs: seq<Visit>, run: seq<MapLayout>) {
    && |run| == |vs| + 1 && run[0] == MapLayout(start, map[], [])
    && forall i :: 0 <= i < |vs| ==> MapStepAt(vs, run, i)
  }

  /** Laying out the code at offset `code` rebases the stored value. */
  function Rebased(stored: nat, code: nat): nat {
    if stored != 0 && code != 0 then Word(stored + code) else stored
  }

  /** Storing, rebasing and subtracting again gives the table's offset back. */
  lemma OffsetRoundTrip(o: nat, code: nat)
    requires 0 < o < TWO32 && 0 < code < TWO32
    ensures Word(code - Rebased(Negated(o), code)) == o
    ensures o < code ==> 0 < Rebased(Negated(o), code) == code - o
  {
    var i: int := o;
    WordSum(-i, code);
    assert Rebased(Negated(o), code) == Word(code - o);
    WordSum(code - o, code);
    WordOf(o, o, 0);
    if o < code {
      WordOf(code - o, code - o, 0);
    }
  }

  /** No earlier visit has the same table. */
  ghost predicate FirstMap(vs: seq<Visit>, i: nat)
    requires i < |vs|
  {
    vs[i].body.vmap != [] && forall j :: 0 <= j < i ==> vs[j].body.vmapId != vs[i].body.vmapId
  }

  /** `stored` leads to the tables of the visits so far, and there are no other tables. */
  ghost predicate MapsRecorded(vs: seq<Visit>, s: MapLayout, n: nat)
    requires n <= |vs|
  {
    && |s.stored| == n
    && (forall i :: 0 <= i < n ==>
          if vs[i].body.vmap == [] then s.stored[i] == 0
          else vs[i].body.vmapId in s.dedupe && s.stored[i] == Negated(s.dedupe[vs[i].body.vmapId]))
    && (forall id :: id in s.dedupe ==> exists i :: 0 <= i < n && vs[i].body.vmapId == id)
  }

  /** The tables lie between start and the current offset. */
  ghost predicate TablesPlaced(start: nat, prog: Program, s: MapLayout) {
    && start <= s.offset
    && forall id :: id in s.dedupe ==>
         && id in prog.vmaps && prog.vmaps[id] != []
         && start <= s.dedupe[id] && s.dedupe[id] + |prog.vmaps[id]| <= s.offset
  }

  lemma MapsRecordedStep(vs: seq<Visit>, s: MapLayout, n: nat)
    requires n < |vs| && MapsRecorded(vs, s, n)
    ensures MapsRecorded(vs, MapStep(s, vs[n]), n + 1)
  {
    var t := MapStep(s, vs[n]);
    forall i | 0 <= i < n + 1
      ensures if vs[i].body.vmap == [] then t.stored[i] == 0
              else vs[i].body.vmapId in t.dedupe && t.stored[i] == Negated(t.dedupe[vs[i].body.vmapId])
    {
      assert i < n ==> t.stored[i] == s.stored[i];
    }
    forall id | id in t.dedupe ensures exists i :: 0 <= i < n + 1 && vs[i].body.vmapId == id {
      if id in s.dedupe {
        var i :| 0 <= i < n && vs[i].body.vmapId == id;
      } else {
        assert vs[n].body.vmapId == id;
      }
    }
  }

  lemma {:induction false} MapLayoutPlaced(start: nat, prog: Program, vs: seq<Visit>, run: seq<MapLayout>, n: nat)
    requires n <= |vs| && MapRun(start, vs, run) && Linked(prog, vs)
    ensures MapsRecorded(vs, run[n], n) && TablesPlaced(start, prog, run[n])
  {
    if n > 0 {
      MapLayoutPlaced(start, prog, vs, run, n - 1);
      assert MapStepAt(vs, run, n - 1) && prog.Has(vs[n - 1]);
      MapsRecordedStep(vs, run[n - 1], n - 1);
    }
  }

  /** A table is new to the layout pass exactly at its first visit. */
  lemma NewTableIsFirst(start: nat, prog: Program, vs: seq<Visit>, run: seq<MapLayout>, n: nat)
    requires n < |vs| && MapRun(start, vs, run) && Linked(prog, vs) && vs[n].body.vmap != []
    ensures vs[n].body.vmapId !in run[n].dedupe <==> FirstMap(vs, n)
  {
    MapLayoutPlaced(start, prog, vs, run, n);
    if !FirstMap(vs, n) {
      var j :| 0 <= j < n && vs[j].body.vmapId == vs[n].body.vmapId;
      assert prog.Has(vs[j]) && prog.Has(vs[n]);
    }
  }

  /** Where the table of visit i lies, according to a finished layout. */
  function TableAt(vs: seq<Visit>, s: MapLayout, i: nat): nat
    requires i < |vs| && vs[i].body.vmapId in s.dedupe
  {
    s.dedupe[vs[i].body.vmapId]
  }

  /** t knows all tables of s, where s has them. */
  ghost predicate Extends(s: MapLayout, t: MapLayout) {
    && s.offset <= t.offset && s.stored <= t.stored
    && forall id :: id in s.dedupe ==> id in t.dedupe && t.dedupe[id] == s.dedupe[id]
  }

  lemma {:induction false} MapRunExtends(start: nat, vs: seq<Visit>, run: seq<MapLayout>, m: nat, n: nat)
    requires m <= n <= |vs| && MapRun(start, vs, run)
    ensures Extends(run[m], run[n])
    decreases n - m
  {
    if m < n {
      MapRunExtends(start, vs, run, m, n - 1);
      assert MapStepAt(vs, run, n - 1);
    }
  }

  // -- The write pass

  datatype MapWritten = MapWritten(offset: nat, wrote: seq<bool>, out: seq<byte>)

  /** field is the final vmap table offset in the method's header, code the start of its code. */
  function MapWriteStep(w: MapWritten, v: Visit, field: nat, code: nat): MapWritten {
    if field != 0 && Word(code - field) == w.offset
    then MapWritten(w.offset + |v.body.vmap|, w.wrote + [true], w.out + v.body.vmap)
    else w.(wrote := w.wrote + [false])
  }

  ghost predicate MapWriteStepAt(vs: seq<Visit>, stored: seq<nat>, codes: seq<nat>, run: seq<MapWritten>, i: nat)
    requires i < |vs| && i + 1 < |run| && |stored| == |codes| == |vs|
  {
    run[i + 1] == MapWriteStep(run[i], vs[i], Rebased(stored[i], codes[i]), codes[i])
  }

  ghost predicate MapWriteRun(start: nat, vs: seq<Visit>, stored: seq<nat>, codes: seq<nat>, run: seq<MapWritten>) {
    && |run| == |vs| + 1 && |stored| == |codes| == |vs| && run[0] == MapWritten(start, [], [])
    && forall i :: 0 <= i < |vs| ==> MapWriteStepAt(vs, stored, codes, run, i)
  }

  /** Code comes after the tables, and everything fits into 32 bits. */
  ghost predicate CodesAfter(end: nat, codes: seq<nat>) {
    forall i :: 0 <= i < |codes| ==> end <= codes[i] < TWO32
  }

  ghost predicate MapsInStep(start: nat, s: MapLayout, w: MapWritten) {
    w.offset == s.offset && start + |w.out| == w.offset
  }

  /** What the write pass reads back from the header is the table's offset. */
  lemma TableFromHeader(start: nat, prog: Program, vs: seq<Visit>, run: seq<MapLayout>, codes: seq<nat>, i: nat)
    requires i < |vs| == |codes| && 0 < start && MapRun(start, vs, run) && Linked(prog, vs)
    requires CodesAfter(run[|vs|].offset, codes)
    ensures var final := run[|vs|];
            && |final.stored| == |vs|
            && (vs[i].body.vmap == [] ==> Rebased(final.stored[i], codes[i]) == 0)
            && (vs[i].body.vmap != [] ==>
                  && vs[i].body.vmapId in final.dedupe
                  && Rebased(final.stored[i], codes[i]) == codes[i] - TableAt(vs, final, i) > 0
                  && Word(codes[i] - Rebased(final.stored[i], codes[i])) == TableAt(vs, final, i))
  {
    var final := run[|vs|];
    MapLayoutPlaced(start, prog, vs, run, |vs|);
    assert prog.Has(vs[i]);
    if vs[i].body.vmap != [] {
      OffsetRoundTrip(TableAt(vs, final, i), codes[i]);
    }
  }

  /** The write pass writes a table exactly at its first visit, and stays in step. */
  lemma {:induction false} MapSimulation(start: nat, prog: Program, vs: seq<Visit>, run: seq<MapLayout>,
                                         codes: seq<nat>, wrun: seq<MapWritten>, n: nat)
    requires n <= |vs| == |codes| && 0 < start && MapRun(start, vs, run) && Linked(prog, vs)
    requires CodesAfter(run[|vs|].offset, codes)
    requires MapWriteRun(start, vs, run[|vs|].stored, codes, wrun)
    ensures MapsInStep(start, run[n], wrun[n])
    ensures |wrun[n].wrote| == n && forall i :: 0 <= i < n ==> (wrun[n].wrote[i] <==> FirstMap(vs, i))
  {
    if n > 0 {
      MapSimulation(start, prog, vs, run, codes, wrun, n - 1);
      MapWriteInStep(start, prog, vs, run, codes, wrun, n - 1);
    }
  }

  lemma MapWriteInStep(start: nat, prog: Program, vs: seq<Visit>, run: seq<MapLayout>,
                       codes: seq<nat>, wrun: seq<MapWritten>, n: nat)
    requires n < |vs| == |codes| && 0 < start && MapRun(start, vs, run) && Linked(prog, vs)
    requires CodesAfter(run[|vs|].offset, codes)
    requires MapWriteRun(start, vs, run[|vs|].stored, codes, wrun)
    requires MapsInStep(start, run[n], wrun[n])
    ensures MapsInStep(start, run[n + 1], wrun[n + 1])
    ensures wrun[n + 1].wrote == wrun[n].wrote + [FirstMap(vs, n)]
    ensures FirstMap(vs, n) ==> wrun[n + 1].out == wrun[n].out + vs[n].body.vmap
    ensures FirstMap(vs, n) ==> vs[n].body.vmapId in run[|vs|].dedupe && TableAt(vs, run[|vs|], n) == run[n].offset
  {
    assert MapStepAt(vs, run, n) && MapWriteStepAt(vs, run[|vs|].stored, codes, wrun, n);
    assert prog.Has(vs[n]);
    TableFromHeader(start, prog, vs, run, codes, n);
    if vs[n].body.vmap != [] {
      NewTableIsFirst(start, prog, vs, run, n);
      MapRunExtends(start, vs, run, n + 1, |vs|);
      MapLayoutPlaced(start, prog, vs, run, n);
    }
  }

  /** The tables, from `start` on. */
  function MapBytes(start: nat, out: seq<byte>, from: nat, size: nat): seq<byte> {
    if start <= from && from + size <= start + |out| then out[from - start..from - start + size] else []
  }

  lemma {:induction false} MapsOutGrows(start: nat, vs: seq<Visit>, stored: seq<nat>, codes: seq<nat>,
                                        wrun: seq<MapWritten>, m: nat, n: nat)
    requires m <= n <= |vs| && MapWriteRun(start, vs, stored, codes, wrun)
    ensures wrun[m].out <= wrun[n].out
    decreases n - m
  {
    if m < n {
      MapsOutGrows(start, vs, stored, codes, wrun, m, n - 1);
      assert MapWriteStepAt(vs, stored, codes, wrun, n - 1);
    }
  }

  lemma {:induction false} FirstWithTable(vs: seq<Visit>, i: nat) returns (f: nat)
    requires i < |vs| && forall j :: 0 <= j < |vs| && vs[j].body.vmapId == vs[i].body.vmapId ==> vs[j].body.vmap != []
    ensures f <= i && vs[f].body.vmapId == vs[i].body.vmapId && FirstMap(vs, f)
  {
    if FirstMap(vs, i) {
      f := i;
    } else {
      var j :| 0 <= j < i && vs[j].body.vmapId == vs[i].body.vmapId;
      f := FirstWithTable(vs, j);
    }
  }

  /** Every method's table is in the output, where the header leads. */
  lemma TableBytes(start: nat, prog: Program, vs: seq<Visit>, run: seq<MapLayout>,
                   codes: seq<nat>, wrun: seq<MapWritten>, i: nat)
    requires i < |vs| == |codes| && 0 < start && MapRun(start, vs, run) && Linked(prog, vs)
    requires CodesAfter(run[|vs|].offset, codes)
    requires MapWriteRun(start, vs, run[|vs|].stored, codes, wrun)
    requires vs[i].body.vmap != []
    ensures |run[|vs|].stored| == |vs|
    ensures MapBytes(start, wrun[|vs|].out, Word(codes[i] - Rebased(run[|vs|].stored[i], codes[i])),
                     |vs[i].body.vmap|) == vs[i].body.vmap
  {
    TableFromHeader(start, prog, vs, run, codes, i);
    assert prog.Has(vs[i]);
    assert forall j :: 0 <= j < |vs| ==> prog.Has(vs[j]);
    var f := FirstWithTable(vs, i);
    assert vs[f].body.vmap == vs[i].body.vmap;
    MapSimulation(start, prog, vs, run, codes, wrun, f);
    MapWriteInStep(start, prog, vs, run, codes, wrun, f);
    MapsOutGrows(start, vs, run[|vs|].stored, codes, wrun, f + 1, |vs|);
    var a, b := wrun[f + 1].out, wrun[|vs|].out;
    assert b[..|a|] == a && a[|wrun[f].out|..] == vs[f].body.vmap;
  }

  /** The vmap field of a method's header leads to its table, and is zero exactly without one. */
  lemma FieldLeads(start: nat, prog: Program, vs: seq<Visit>, run: seq<MapLayout>,
                   codes: seq<nat>, wrun: seq<MapWritten>, i: nat)
    requires i < |vs| == |codes| && 0 < start && MapRun(start, vs, run) && Linked(prog, vs)
    requires CodesAfter(run[|vs|].offset, codes)
    requires MapWriteRun(start, vs, run[|vs|].stored, codes, wrun)
    ensures |run[|vs|].stored| == |vs|
    ensures var field, m := Word(Rebased(run[|vs|].stored[i], codes[i])), vs[i].body;
            && (field == 0 <==> m.vmap == [])
            && (m.vmap != [] ==> MapBytes(start, wrun[|vs|].out, Word(codes[i] - field), |m.vmap|) == m.vmap)
  {
    TableFromHeader(start, prog, vs, run, codes, i);
    assert codes[i] < TWO32;
    var field := Rebased(run[|vs|].stored[i], codes[i]);
    WordOf(field, field, 0);
    if vs[i].body.vmap != [] {
      TableBytes(start, prog, vs, run, codes, wrun, i);
    }
  }
}
