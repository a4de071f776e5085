/**
 * VisitDexMethodsTwice (compiler/oat_writer.cc): hot methods in a first sweep, all others in a
 * second one, with two counters that have to stay in step with the classes' tables.
 */
module OatVisit {
  import opened OatTypes

  type MethodTable = map<MethodRef, CompiledMethod>

  /** The methods of one class in definition order, direct ones first. */
  type ClassMethods = seq<MethodRef>

  /** Which methods of a class are compiled. */
  function Flags(compiled: MethodTable, methods: ClassMethods): (flags: seq<bool>)
    ensures |flags| == |methods|
  {
    seq(|methods|, i requires 0 <= i < |methods| => methods[i] in compiled)
  }

  /** Number of compiled methods among the first k of a class. */
  function Rank(flags: seq<bool>, k: nat): (r: nat)
    requires k <= |flags|
    ensures r <= k
  {
    if k == 0 then 0 else Rank(flags, k - 1) + (if flags[k - 1] then 1 else 0)
  }

  /** What a sweep for the hot (wanted) or the other methods processes in class c. */
  function ClassSweep(compiled: MethodTable, hot: set<MethodRef>, wanted: bool,
                      c: nat, methods: ClassMethods, k: nat): seq<Visit>
    requires k <= |methods|
  {
    if k == 0 then []
    else
      var before, ref := ClassSweep(compiled, hot, wanted, c, methods, k - 1), methods[k - 1];
      if ref in compiled && (ref in hot) == wanted
      then before + [Visit(c, Rank(Flags(compiled, methods), k - 1), ref, compiled[ref])]
      else before
  }

  /** What it processes in the first n classes. */
  function Sweep(compiled: MethodTable, hot: set<MethodRef>, wanted: bool,
                 classes: seq<ClassMethods>, n: nat): seq<Visit>
    requires n <= |classes|
  {
    if n == 0 then []
    else Sweep(compiled, hot, wanted, classes, n - 1)
         + ClassSweep(compiled, hot, wanted, n - 1, classes[n - 1], |classes[n - 1]|)
  }

  /** The order in which the two sweeps process the methods. */
  function Schedule(compiled: MethodTable, classes: seq<ClassMethods>, hot: set<MethodRef>): seq<Visit> {
    Sweep(compiled, hot, true, classes, |classes|) + Sweep(compiled, hot, false, classes, |classes|)
  }

  /** v visits the k-th method of its class, and its slot counts the compiled methods before it. */
  ghost predicate VisitOf(compiled: MethodTable, classes: seq<ClassMethods>, v: Visit, k: nat) {
    && v.oatClass < |classes| && k < |classes[v.oatClass]|
    && v.ref == classes[v.oatClass][k] && v.ref in compiled
    && v.body == compiled[v.ref] && v.slot == Rank(Flags(compiled, classes[v.oatClass]), k)
  }

  /** Definition order. */
  predicate Before(a: Visit, b: Visit) {
    a.oatClass < b.oatClass || (a.oatClass == b.oatClass && a.slot < b.slot)
  }

  ghost predicate InOrder(vs: seq<Visit>) {
    forall i, j :: 0 <= i < j < |vs| ==> Before(vs[i], vs[j])
  }

  /** Hot methods first; within the hot ones and within the others, definition order. */
  ghost predicate HotFirst(vs: seq<Visit>, hot: set<MethodRef>) {
    forall i, j :: 0 <= i < j < |vs| ==>
      if (vs[i].ref in hot) == (vs[j].ref in hot) then Before(vs[i], vs[j]) else vs[i].ref in hot
  }

  lemma {:induction false} RankGrows(flags: seq<bool>, j: nat, k: nat)
    requires j <= k <= |flags|
    ensures Rank(flags, j) <= Rank(flags, k)
    ensures j < k && flags[j] ==> Rank(flags, j) < Rank(flags, k)
  {
    if j < k {
      RankGrows(flags, j, k - 1);
    }
  }

  /** Entry i of a class' sweep belongs to its j-th method. */
  lemma {:induction false} ClassSweepAt(compiled: MethodTable, hot: set<MethodRef>, wanted: bool,
                                        c: nat, methods: ClassMethods, k: nat, i: nat)
    returns (j: nat)
    requires k <= |methods| && i < |ClassSweep(compiled, hot, wanted, c, methods, k)|
    ensures j < k && methods[j] in compiled && (methods[j] in hot) == wanted
    ensures ClassSweep(compiled, hot, wanted, c, methods, k)[i]
            == Visit(c, Rank(Flags(compiled, methods), j), methods[j], compiled[methods[j]])
  {
    if i < |ClassSweep(compiled, hot, wanted, c, methods, k - 1)| {
      j := ClassSweepAt(compiled, hot, wanted, c, methods, k - 1, i);
    } else {
      j := k - 1;
    }
  }

  lemma {:induction false} ClassSweepHas(compiled: MethodTable, hot: set<MethodRef>, wanted: bool,
                                         c: nat, methods: ClassMethods, k: nat, j: nat)
    requires j < k <= |methods| && methods[j] in compiled && (methods[j] in hot) == wanted
    ensures Visit(c, Rank(Flags(compiled, methods), j), methods[j], compiled[methods[j]])
            in ClassSweep(compiled, hot, wanted, c, methods, k)
  {
    if j < k - 1 {
      ClassSweepHas(compiled, hot, wanted, c, methods, k - 1, j);
    }
  }

  lemma {:induction false} ClassSweepInOrder(compiled: MethodTable, hot: set<MethodRef>, wanted: bool,
                                             c: nat, methods: ClassMethods, k: nat)
    requires k <= |methods|
    ensures InOrder(ClassSweep(compiled, hot, wanted, c, methods, k))
  {
    if k > 0 {
      ClassSweepInOrder(compiled, hot, wanted, c, methods, k - 1);
      var before := ClassSweep(compiled, hot, wanted, c, methods, k - 1);
      forall i | 0 <= i < |before|
        ensures before[i].oatClass == c && before[i].slot < Rank(Flags(compiled, methods), k - 1)
      {
        var j := ClassSweepAt(compiled, hot, wanted, c, methods, k - 1, i);
        RankGrows(Flags(compiled, methods), j, k - 1);
      }
    }
  }

  lemma {:induction false} SweepAt(compiled: MethodTable, hot: set<MethodRef>, wanted: bool,
                                   classes: seq<ClassMethods>, n: nat, i: nat)
    returns (k: nat)
    requires n <= |classes| && i < |Sweep(compiled, hot, wanted, classes, n)|
    ensures var v := Sweep(compiled, hot, wanted, classes, n)[i];
            v.oatClass < n && VisitOf(compiled, classes, v, k) && (v.ref in hot) == wanted
  {
    var before := Sweep(compiled, hot, wanted, classes, n - 1);
    if i < |before| {
      k := SweepAt(compiled, hot, wanted, classes, n - 1, i);
    } else {
      k := ClassSweepAt(compiled, hot, wanted, n - 1, classes[n - 1], |classes[n - 1]|, i - |before|);
    }
  }

  lemma {:induction false} SweepHas(compiled: MethodTable, hot: set<MethodRef>, wanted: bool,
                                    classes: seq<ClassMethods>, n: nat, v: Visit, k: nat)
    requires n <= |classes| && v.oatClass < n
    requires VisitOf(compiled, classes, v, k) && (v.ref in hot) == wanted
    ensures v in Sweep(compiled, hot, wanted, classes, n)
  {
    if v.oatClass < n - 1 {
      SweepHas(compiled, hot, wanted, classes, n - 1, v, k);
    } else {
      ClassSweepHas(compiled, hot, wanted, n - 1, classes[n - 1], |classes[n - 1]|, k);
    }
  }

  lemma {:induction false} SweepInOrder(compiled: MethodTable, hot: set<MethodRef>, wanted: bool,
                                        classes: seq<ClassMethods>, n: nat)
    requires n <= |classes|
    ensures InOrder(Sweep(compiled, hot, wanted, classes, n))
  {
    if n > 0 {
      SweepInOrder(compiled, hot, wanted, classes, n - 1);
      ClassSweepInOrder(compiled, hot, wanted, n - 1, classes[n - 1], |classes[n - 1]|);
      var before := Sweep(compiled, hot, wanted, classes, n - 1);
      var here := ClassSweep(compiled, hot, wanted, n - 1, classes[n - 1], |classes[n - 1]|);
      forall i | 0 <= i < |before| ensures before[i].oatClass < n - 1 {
        var _ := SweepAt(compiled, hot, wanted, classes, n - 1, i);
      }
      forall i | 0 <= i < |here| ensures here[i].oatClass == n - 1 {
        var _ := ClassSweepAt(compiled, hot, wanted, n - 1, classes[n - 1], |classes[n - 1]|, i);
      }
    }
  }

  /** The two sweeps process a compiled method for every definition of it, and nothing else. */
  lemma ScheduleVisits(compiled: MethodTable, classes: seq<ClassMethods>, hot: set<MethodRef>, v: Visit)
    ensures v in Schedule(compiled, classes, hot) <==> exists k :: VisitOf(compiled, classes, v, k)
  {
    var n := |classes|;
    var h, c := Sweep(compiled, hot, true, classes, n), Sweep(compiled, hot, false, classes, n);
    if v in h {
      var i :| 0 <= i < |h| && h[i] == v;
      var k := SweepAt(compiled, hot, true, classes, n, i);
    } else if v in c {
      var i :| 0 <= i < |c| && c[i] == v;
      var k := SweepAt(compiled, hot, false, classes, n, i);
    } else if exists k :: VisitOf(compiled, classes, v, k) {
      var k :| VisitOf(compiled, classes, v, k);
      SweepHas(compiled, hot, v.ref in hot, classes, n, v, k);
    }
  }

  /** The slot determines which method of a class is visited. */
  lemma SlotIdentifiesMethod(compiled: MethodTable, classes: seq<ClassMethods>, v: Visit, w: Visit, j: nat, k: nat)
    requires VisitOf(compiled, classes, v, j) && VisitOf(compiled, classes, w, k)
    requires v.oatClass == w.oatClass && v.slot == w.slot
    ensures v == w && j == k
  {
    RankGrows(Flags(compiled, classes[v.oatClass]), if j < k then j else k, if j < k then k else j);
  }

  /**
   * Hot methods first and each group in definition order; no two visits share a slot, so every
   * definition of a compiled method is processed exactly once.
   */
  lemma StablePartition(compiled: MethodTable, classes: seq<ClassMethods>, hot: set<MethodRef>)
    ensures HotFirst(Schedule(compiled, classes, hot), hot)
    ensures var s := Schedule(compiled, classes, hot);
            forall i, j :: 0 <= i < j < |s| ==> s[i].oatClass != s[j].oatClass || s[i].slot != s[j].slot
  {
    var n := |classes|;
    var h, c := Sweep(compiled, hot, true, classes, n), Sweep(compiled, hot, false, classes, n);
    SweepInOrder(compiled, hot, true, classes, n);
    SweepInOrder(compiled, hot, false, classes, n);
    forall i | 0 <= i < |h| ensures h[i].ref in hot {
      var _ := SweepAt(compiled, hot, true, classes, n, i);
    }
    forall i | 0 <= i < |c| ensures c[i].ref !in hot {
      var _ := SweepAt(compiled, hot, false, classes, n, i);
    }
    forall i, j | 0 <= i < |h| && 0 <= j < |c|
      ensures h[i].oatClass != c[j].oatClass || h[i].slot != c[j].slot
    {
      var p := SweepAt(compiled, hot, true, classes, n, i);
      var q := SweepAt(compiled, hot, false, classes, n, j);
      if h[i].oatClass == c[j].oatClass && h[i].slot == c[j].slot {
        SlotIdentifiesMethod(compiled, classes, h[i], c[j], p, q);
      }
    }
  }

  lemma {:induction false} NothingHotInClass(compiled: MethodTable, c: nat, methods: ClassMethods, k: nat)
    requires k <= |methods|
    ensures ClassSweep(compiled, {}, true, c, methods, k) == []
  {
    if k > 0 {
      NothingHotInClass(compiled, c, methods, k - 1);
    }
  }

  lemma {:induction false} NothingHot(compiled: MethodTable, classes: seq<ClassMethods>, n: nat)
    requires n <= |classes|
    ensures Sweep(compiled, {}, true, classes, n) == []
  {
    if n > 0 {
      NothingHot(compiled, classes, n - 1);
      NothingHotInClass(compiled, n - 1, classes[n - 1], |classes[n - 1]|);
    }
  }

  lemma Associate(a: seq<Visit>, b: seq<Visit>, c: seq<Visit>)
    ensures (a + b) + c == a + (b + c)
  {
  }

  class OatDexMethodVisitor {
    const compiled: MethodTable
    const numOatClasses: nat
    var oatClassIndex: nat
    var methodOffsetsIndex: nat
    var hotMethods: Option<set<MethodRef>>
    var initialPass: bool
    /** Calls of the processing code so far, and how many there were at each end-of-code step. */
    var visits: seq<Visit>
    var endOfCode: seq<nat>

    constructor (compiled: MethodTable, numOatClasses: nat)
      ensures this.compiled == compiled && this.numOatClasses == numOatClasses
      ensures oatClassIndex == 0 && methodOffsetsIndex == 0 && hotMethods.None? && !initialPass
      ensures visits == [] && endOfCode == []
    {
      this.compiled, this.numOatClasses := compiled, numOatClasses;
      oatClassIndex, methodOffsetsIndex, hotMethods, initialPass := 0, 0, None, false;
      visits, endOfCode := [], [];
    }

    ghost function Hot(): set<MethodRef>
      reads this`hotMethods
    {
      if hotMethods.Some? then hotMethods.value else {}
    }

    predicate ShouldProcess(ref: MethodRef)
      reads this
    {
      if hotMethods.None? then !initialPass
      else if initialPass then ref in hotMethods.value
      else ref !in hotMethods.value
    }

    method VisitMethod(ref: MethodRef)
      modifies this`methodOffsetsIndex, this`visits
      ensures methodOffsetsIndex == old(methodOffsetsIndex) + (if ref in compiled then 1 else 0)
      ensures visits == if ref in compiled && (ref in Hot()) == initialPass
                        then old(visits) + [Visit(oatClassIndex, old(methodOffsetsIndex), ref, compiled[ref])]
                        else old(visits)
    {
      if ref in compiled {
        if !ShouldProcess(ref) {
          methodOffsetsIndex := methodOffsetsIndex + 1;
          return;
        }
        visits := visits + [Visit(oatClassIndex, methodOffsetsIndex, ref, compiled[ref])];
        methodOffsetsIndex := methodOffsetsIndex + 1;
      }
    }

    /** StartClass, the class' methods, EndClass. */
    method VisitClass(methods: ClassMethods)
      requires oatClassIndex < numOatClasses
      modifies this`methodOffsetsIndex, this`visits, this`oatClassIndex, this`endOfCode
      ensures visits == old(visits)
                + ClassSweep(compiled, Hot(), initialPass, old(oatClassIndex), methods, |methods|)
      ensures oatClassIndex == old(oatClassIndex) + 1
      ensures endOfCode == if !initialPass && oatClassIndex == numOatClasses
                           then old(endOfCode) + [|visits|] else old(endOfCode)
    {
      methodOffsetsIndex := 0;
      ghost var base := visits;
      var i := 0;
      while i < |methods|
        invariant 0 <= i <= |methods| && methodOffsetsIndex == Rank(Flags(compiled, methods), i)
        invariant oatClassIndex == old(oatClassIndex) && endOfCode == old(endOfCode)
        invariant visits == base + ClassSweep(compiled, Hot(), initialPass, oatClassIndex, methods, i)
      {
        VisitMethod(methods[i]);
        i := i + 1;
      }
      oatClassIndex := oatClassIndex + 1;
      if !initialPass && oatClassIndex == numOatClasses {
        endOfCode := endOfCode + [|visits|];
      }
    }

    /** One sweep over all classes. */
    method VisitDexMethods(classes: seq<ClassMethods>)
      requires numOatClasses == |classes| && oatClassIndex == 0
      modifies this`methodOffsetsIndex, this`visits, this`oatClassIndex, this`endOfCode
      ensures visits == old(visits) + Sweep(compiled, Hot(), initialPass, classes, |classes|)
      ensures endOfCode == if !initialPass && classes != [] then old(endOfCode) + [|visits|] else old(endOfCode)
    {
      ghost var base := visits;
      var n := 0;
      while n < |classes|
        invariant 0 <= n == oatClassIndex <= |classes|
        invariant visits == base + Sweep(compiled, Hot(), initialPass, classes, n)
        invariant endOfCode == if !initialPass && 0 < n == |classes|
                               then old(endOfCode) + [|visits|] else old(endOfCode)
      {
        Associate(base, Sweep(compiled, Hot(), initialPass, classes, n),
                  ClassSweep(compiled, Hot(), initialPass, n, classes[n], |classes[n]|));
        VisitClass(classes[n]);
        n := n + 1;
      }
    }

    method VisitDexMethodsTwice(classes: seq<ClassMethods>, hot: set<MethodRef>)
      requires numOatClasses == |classes|
      requires oatClassIndex == 0 && hotMethods.None? && !initialPass && visits == [] && endOfCode == []
      modifies this
      ensures visits == Schedule(compiled, classes, hot)
      ensures endOfCode == if classes == [] then [] else [|visits|]
    {
      if hot == {} {
        NothingHot(compiled, classes, |classes|);
        VisitDexMethods(classes);
        return;
      }
      initialPass := true;
      hotMethods := Some(hot);
      VisitDexMethods(classes);
      initialPass := false;
      oatClassIndex, methodOffsetsIndex := 0, 0;
      VisitDexMethods(classes);
    }
  }
}
