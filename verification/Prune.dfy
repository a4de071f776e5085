/**
 * Which classes an app image may keep (compiler/image_writer.cc).
 *
 * A class is bad when it was loaded by the boot class loader, is not an image class or is
 * erroneous. PruneAppImageClass runs a depth-first search with a memo table that outlives the
 * search and a cut-off on classes that are already on the search stack; it has to answer
 * whether a bad class can be reached without passing through the boot image.
 */
module Prune {
  import opened OatTypes

  type ClassId = nat

  /** The value of a static reference field. */
  datatype StaticRef = NullRef | ClassObject(klass: ClassId) | InstanceOf(klass: ClassId)

  datatype ClassInfo = ClassInfo(
    inBootImage: bool,
    bootLoader: bool,
    imageClass: bool,
    erroneous: bool,
    resolved: bool,
    interfaces: seq<ClassId>,
    component: Option<ClassId>,   // set exactly for object-array classes
    staticRefs: seq<StaticRef>,
    super: Option<ClassId>)
  {
    predicate Bad() {
      bootLoader || !imageClass || erroneous
    }

    /** k is one of the classes this class depends on. */
    predicate DependsOn(k: ClassId) {
      || k in interfaces
      || component == Some(k)
      || (resolved && (ClassObject(k) in staticRefs || InstanceOf(k) in staticRefs))
      || super == Some(k)
    }
  }

  type ClassGraph = map<ClassId, ClassInfo>

  /**
   * An entry of a dex cache: a resolved type, or a resolved method or field with its declaring class.
   * Cleared stands for null and, among methods, for the resolution method.
   */
  datatype Entry = Cleared | Resolved(id: nat, klass: Option<ClassId>, copied: bool)

  predicate EntriesIn(g: ClassGraph, entries: seq<Entry>) {
    forall i :: 0 <= i < |entries| && entries[i].Resolved? && entries[i].klass.Some? ==> entries[i].klass.value in g
  }

  ghost predicate Closed(g: ClassGraph) {
    forall k, d :: k in g && g[k].DependsOn(d) ==> d in g
  }

  /** A dependency chain outside the boot image that avoids `cut` and ends in a bad class. */
  ghost predicate BadPath(g: ClassGraph, p: seq<ClassId>, cut: set<ClassId>) {
    && |p| > 0
    && (forall i :: 0 <= i < |p| ==> p[i] in g && !g[p[i]].inBootImage && p[i] !in cut)
    && (forall i :: 0 <= i < |p| - 1 ==> g[p[i]].DependsOn(p[i + 1]))
    && g[p[|p| - 1]].Bad()
  }

  ghost predicate ReachesBad(g: ClassGraph, k: ClassId, cut: set<ClassId>) {
    exists p :: BadPath(g, p, cut) && p[0] == k
  }

  /** The class must not enter the image. */
  ghost predicate MustPrune(g: ClassGraph, k: ClassId) {
    ReachesBad(g, k, {})
  }

  lemma BadReachesItself(g: ClassGraph, k: ClassId)
    requires k in g && !g[k].inBootImage && g[k].Bad()
    ensures MustPrune(g, k)
  {
    assert BadPath(g, [k], {});
  }

  lemma PruneThroughDependency(g: ClassGraph, k: ClassId, d: ClassId)
    requires k in g && !g[k].inBootImage && g[k].DependsOn(d) && MustPrune(g, d)
    ensures MustPrune(g, k)
  {
    var p :| BadPath(g, p, {}) && p[0] == d;
    var q := [k] + p;
    assert q[|q| - 1] == p[|p| - 1];
    assert forall i :: 0 < i < |q| ==> q[i] == p[i - 1];
    assert BadPath(g, q, {}) && q[0] == k;
  }

  /** Every bad path from k has a suffix that starts at the last visit of k. */
  lemma {:induction false} LeaveForGood(g: ClassGraph, p: seq<ClassId>, cut: set<ClassId>)
    returns (q: seq<ClassId>)
    requires BadPath(g, p, cut)
    ensures BadPath(g, q, cut) && q[0] == p[0] && p[0] !in q[1..]
    decreases |p|
  {
    if p[0] in p[1..] {
      var j :| 0 < j < |p| && p[j] == p[0];
      q := LeaveForGood(g, p[j..], cut);
    } else {
      q := p;
    }
  }

  /** If no dependency of k reaches a bad class once k itself is cut off, then neither does k. */
  lemma NoBadPathAround(g: ClassGraph, k: ClassId, cut: set<ClassId>)
    requires k in g && !g[k].Bad()
    requires forall d :: g[k].DependsOn(d) ==> !ReachesBad(g, d, cut + {k})
    ensures !ReachesBad(g, k, cut)
  {
    if ReachesBad(g, k, cut) {
      var p :| BadPath(g, p, cut) && p[0] == k;
      var q := LeaveForGood(g, p, cut);
      assert |q| > 1;
      var r := q[1..];
      assert r[|r| - 1] == q[|q| - 1];
      assert forall i :: 0 <= i < |r| ==> r[i] == q[i + 1] && r[i] in r;
      assert g[k].DependsOn(r[0]);
      assert BadPath(g, r, cut + {k});
    }
  }

  /** If no dependency of k must be pruned and k is not bad itself, k need not be pruned. */
  lemma NoBadDependency(g: ClassGraph, k: ClassId)
    requires k in g && !g[k].Bad()
    requires forall d :: g[k].DependsOn(d) ==> !MustPrune(g, d)
    ensures !MustPrune(g, k)
  {
    if MustPrune(g, k) {
      var p :| BadPath(g, p, {}) && p[0] == k;
      var r := p[1..];
      assert r[|r| - 1] == p[|p| - 1];
      assert g[k].DependsOn(r[0]);
      assert BadPath(g, r, {});
    }
  }

  /** What KeepClass has to answer. */
  ghost predicate Kept(g: ClassGraph, appImage: bool, k: ClassId)
    requires k in g
  {
    if appImage then g[k].inBootImage || !MustPrune(g, k) else g[k].imageClass
  }

  /** The kept classes of an app image are closed under dependencies. */
  lemma KeptClosedUnderDependencies(g: ClassGraph, k: ClassId, d: ClassId)
    requires Closed(g) && k in g && !g[k].inBootImage
    requires Kept(g, true, k) && g[k].DependsOn(d)
    ensures Kept(g, true, d)
  {
    if !g[d].inBootImage && MustPrune(g, d) {
      PruneThroughDependency(g, k, d);
    }
  }

  /** Nothing that could have been kept is pruned: any good, closed set of classes is kept. */
  lemma {:induction false} KeptIsGreatest(g: ClassGraph, good: set<ClassId>, k: ClassId)
    requires forall c :: c in good ==> c in g && !g[c].inBootImage && !g[c].Bad()
    requires forall c, d :: c in good && g[c].DependsOn(d) ==>
               d in good || (d in g && g[d].inBootImage)
    requires k in good
    ensures Kept(g, true, k)
  {
    if MustPrune(g, k) {
      var p :| BadPath(g, p, {}) && p[0] == k;
      var i := 0;
      while i < |p| - 1
        invariant 0 <= i < |p| && p[i] in good
      {
        assert g[p[i]].DependsOn(p[i + 1]);
        i := i + 1;
      }
      assert false;
    }
  }

  class ImageWriter {
    const graph: ClassGraph
    const appImage: bool
    var pruneClassMemo: map<ClassId, bool>

    constructor (g: ClassGraph, appImage: bool)
      ensures graph == g && this.appImage == appImage && MemoCorrect()
    {
      graph, this.appImage := g, appImage;
      pruneClassMemo := map[];
    }

    /** Every answer in the memo table is the right one. */
    ghost predicate MemoCorrect()
      reads this
    {
      forall k :: k in pruneClassMemo ==>
        k in graph && !graph[k].inBootImage && (pruneClassMemo[k] <==> MustPrune(graph, k))
    }

    /** What one call of the search establishes about its class. */
    ghost predicate Answered(k: ClassId, cut: set<ClassId>, result: bool, cutOff: bool) {
      && (result ==> MustPrune(graph, k))
      && (!result ==> !ReachesBad(graph, k, cut))
      && (!result && !cutOff ==> !MustPrune(graph, k))
    }

    /** The search of k so far: found a bad class, or said no for every class in `cleared`. */
    ghost predicate Searched(k: ClassId, result: bool, cleared: set<ClassId>, cut: set<ClassId>, cutOff: bool) {
      if result then MustPrune(graph, k)
      else forall d :: d in cleared ==> Answered(d, cut, false, cutOff)
    }

    /** visited and earlyExit are the in-out parameters of the original. */
    method PruneAppImageClassInternal(klass: Option<ClassId>, earlyExit: bool, visited: set<ClassId>)
      returns (result: bool, earlyExit': bool, visited': set<ClassId>)
      requires MemoCorrect() && Closed(graph) && visited <= graph.Keys
      requires klass.Some? ==> klass.value in graph
      modifies this
      ensures MemoCorrect() && visited' == visited
      ensures earlyExit ==> earlyExit'
      ensures klass.None? ==> !result
      ensures klass.Some? ==> Answered(klass.value, visited, result, earlyExit')
      decreases graph.Keys - visited, 1
    {
      earlyExit', visited' := earlyExit, visited;
      if klass.None? || graph[klass.value].inBootImage {
        return false, earlyExit, visited;
      }
      var k := klass.value;
      if k in pruneClassMemo {
        if !pruneClassMemo[k] {
          NarrowerCut(k, visited);
        }
        return pruneClassMemo[k], earlyExit, visited;
      }
      if k in visited {
        return false, true, visited;
      }
      var info := graph[k];
      visited' := visited' + {k};
      ghost var inner, cleared: set<ClassId> := visited', {};
      result := info.bootLoader || !info.imageClass;
      var myEarlyExit := false;
      if info.erroneous {
        result := true;
      }
      if result {
        BadReachesItself(graph, k);
      }
      if !result {
        var i := 0;
        while i < |info.interfaces|
          invariant 0 <= i <= |info.interfaces|
          invariant MemoCorrect() && visited' == inner
          invariant Searched(k, result, cleared, inner, myEarlyExit)
          invariant !result ==> forall j :: 0 <= j < i ==> info.interfaces[j] in cleared
        {
          assert info.DependsOn(info.interfaces[i]);
          result, myEarlyExit, visited', cleared :=
            OrPrune(k, result, Some(info.interfaces[i]), myEarlyExit, visited', cleared);
          i := i + 1;
        }
      }
      if info.component.Some? {
        result, myEarlyExit, visited', cleared :=
          OrPrune(k, result, info.component, myEarlyExit, visited', cleared);
      }
      ghost var before, hit := cleared, result;
      if |info.staticRefs| != 0 && info.resolved {
        var i := 0;
        while i < |info.staticRefs|
          invariant 0 <= i <= |info.staticRefs|
          invariant MemoCorrect() && visited' == inner
          invariant Searched(k, result, cleared, inner, myEarlyExit)
          invariant !result ==> !hit && before <= cleared
          invariant !result ==> forall j :: 0 <= j < i && !info.staticRefs[j].NullRef? ==>
                                  info.staticRefs[j].klass in cleared
        {
          var ref := info.staticRefs[i];
          if !ref.NullRef? {
            assert info.DependsOn(ref.klass);
            result, myEarlyExit, visited', cleared :=
              OrPrune(k, result, Some(ref.klass), myEarlyExit, visited', cleared);
          }
          i := i + 1;
        }
      }
      result, myEarlyExit, visited', cleared :=
        OrPrune(k, result, info.super, myEarlyExit, visited', cleared);
      if !result {
        assert forall d :: info.DependsOn(d) ==> d in cleared;
        NothingFound(k, cleared, visited, myEarlyExit);
      }
      visited' := visited' - {k};
      if result || !myEarlyExit || visited' == {} {
        pruneClassMemo := pruneClassMemo[k := result];
      }
      earlyExit' := earlyExit || myEarlyExit;
    }

    /** result = result || PruneAppImageClassInternal(dep, ...), for a dependency of k. */
    method OrPrune(k: ClassId, result: bool, dep: Option<ClassId>, earlyExit: bool,
                   visited: set<ClassId>, ghost cleared: set<ClassId>)
      returns (result': bool, earlyExit': bool, visited': set<ClassId>, ghost cleared': set<ClassId>)
      requires MemoCorrect() && Closed(graph) && visited <= graph.Keys
      requires k in graph && !graph[k].inBootImage
      requires dep.Some? ==> graph[k].DependsOn(dep.value)
      requires Searched(k, result, cleared, visited, earlyExit)
      modifies this
      ensures MemoCorrect() && visited' == visited
      ensures result ==> result'
      ensures Searched(k, result', cleared', visited, earlyExit')
      ensures cleared' == cleared + (if dep.Some? then {dep.value} else {})
      decreases graph.Keys - visited, 2
    {
      result', earlyExit', visited' := result, earlyExit, visited;
      cleared' := cleared + (if dep.Some? then {dep.value} else {});
      if !result {
        result', earlyExit', visited' := PruneAppImageClassInternal(dep, earlyExit, visited);
        if result' {
          PruneThroughDependency(graph, k, dep.value);
        }
      }
    }

    /** All dependencies answered no: so does k, and finally so if nothing was cut off. */
    lemma NothingFound(k: ClassId, cleared: set<ClassId>, cut: set<ClassId>, cutOff: bool)
      requires k in graph && !graph[k].Bad()
      requires Searched(k, false, cleared, cut + {k}, cutOff)
      requires forall d :: graph[k].DependsOn(d) ==> d in cleared
      ensures Answered(k, cut, false, cutOff)
    {
      NoBadPathAround(graph, k, cut);
      if !cutOff {
        NoBadDependency(graph, k);
      }
    }

    /** Cutting off more classes cannot make a bad class reachable. */
    lemma NarrowerCut(k: ClassId, cut: set<ClassId>)
      requires !MustPrune(graph, k)
      ensures !ReachesBad(graph, k, cut)
    {
      if ReachesBad(graph, k, cut) {
        var p :| BadPath(graph, p, cut) && p[0] == k;
        assert BadPath(graph, p, {});
      }
    }

    method PruneAppImageClass(klass: ClassId) returns (prune: bool)
      requires MemoCorrect() && Closed(graph) && klass in graph
      modifies this
      ensures MemoCorrect()
      ensures prune <==> MustPrune(graph, klass)
    {
      var earlyExit, visited := false, {};
      prune, earlyExit, visited := PruneAppImageClassInternal(Some(klass), earlyExit, visited);
    }

    method KeepClass(klass: Option<ClassId>) returns (keep: bool)
      requires MemoCorrect() && Closed(graph)
      requires klass.Some? ==> klass.value in graph
      modifies this
      ensures MemoCorrect()
      ensures keep <==> klass.Some? && Kept(graph, appImage, klass.value)
    {
      if klass.None? {
        return false;
      }
      var k := klass.value;
      if appImage && graph[k].inBootImage {
        return true;
      }
      if !graph[k].imageClass {
        if appImage {
          BadReachesItself(graph, k);
        }
        return false;
      }
      if appImage {
        var prune := PruneAppImageClass(k);
        return !prune;
      }
      return true;
    }

    /** Clears the entries of one kind that would keep a removed class alive. */
    method ClearUnkept(entries: array<Entry>)
      requires MemoCorrect() && Closed(graph) && EntriesIn(graph, entries[..])
      modifies this, entries
      ensures MemoCorrect() && forall i :: 0 <= i < entries.Length ==> entries[i] == KeptEntry(old(entries[i]))
    {
      var i := 0;
      while i < entries.Length
        invariant 0 <= i <= entries.Length && MemoCorrect()
        invariant forall j :: i <= j < entries.Length ==> entries[j] == old(entries[j])
        invariant forall j :: 0 <= j < i ==> entries[j] == KeptEntry(old(entries[j]))
      {
        if entries[i].Resolved? {
          assert entries[i] == old(entries[..])[i];
          var keep := KeepClass(entries[i].klass);
          if entries[i].copied || !keep {
            entries[i] := Cleared;
          }
        }
        i := i + 1;
      }
    }

    /** What becomes of an entry of a dex cache. */
    ghost function KeptEntry(e: Entry): Entry {
      if e.Resolved? && !e.copied && e.klass.Some? && e.klass.value in graph && Kept(graph, appImage, e.klass.value)
      then e else Cleared
    }

    /** Collects the classes to remove. */
    method ClassesToPrune(classes: seq<ClassId>) returns (toPrune: set<ClassId>)
      requires MemoCorrect() && Closed(graph)
      requires forall k :: k in classes ==> k in graph
      modifies this
      ensures MemoCorrect() && toPrune == set k | k in classes && !Kept(graph, appImage, k)
    {
      toPrune := {};
      var i := 0;
      while i < |classes|
        invariant 0 <= i <= |classes| && MemoCorrect()
        invariant toPrune == set k | k in classes[..i] && !Kept(graph, appImage, k)
      {
        var keep := KeepClass(Some(classes[i]));
        if !keep {
          toPrune := toPrune + {classes[i]};
        }
        assert classes[..i + 1] == classes[..i] + [classes[i]];
        i := i + 1;
      }
      assert classes[..i] == classes;
    }

    /**
     * The sweeps that share the memo table: the classes to remove, then the resolved types, methods
     * and fields of the dex caches; the table is dropped at the end.
     */
    method PruneNonImageClasses(classes: seq<ClassId>, types: array<Entry>, methods: array<Entry>,
                                fields: array<Entry>)
      returns (toPrune: set<ClassId>)
      requires MemoCorrect() && Closed(graph) && types != methods && types != fields && methods != fields
      requires forall k :: k in classes ==> k in graph
      requires EntriesIn(graph, types[..]) && EntriesIn(graph, methods[..]) && EntriesIn(graph, fields[..])
      modifies this, types, methods, fields
      ensures pruneClassMemo == map[]
      ensures toPrune == set k | k in classes && !Kept(graph, appImage, k)
      ensures forall i :: 0 <= i < types.Length ==> types[i] == KeptEntry(old(types[i]))
      ensures forall i :: 0 <= i < methods.Length ==> methods[i] == KeptEntry(old(methods[i]))
      ensures forall i :: 0 <= i < fields.Length ==> fields[i] == KeptEntry(old(fields[i]))
    {
      toPrune := ClassesToPrune(classes);
      ClearUnkept(types);
      ClearUnkept(methods);
      ClearUnkept(fields);
      pruneClassMemo := map[];
    }
  }
}
