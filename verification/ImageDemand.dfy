/**
 * How much room the objects of a heap need (compiler/image_writer.cc): the sizes of the bins after
 * the first pass depend on the heap alone, not on the order in which it was walked.
 */
module ImageDemand {
  import opened BinSlot
  import opened ImageBins

  /** What takes up room once: an object, or all strings with one value. */
  datatype Key = Own(o: ObjId) | Text(value: nat)

  function KeyFor(heap: Heap, o: ObjId): Key
    requires o in heap
  {
    if heap[o].kind.StringObject? then Text(heap[o].kind.value) else Own(o)
  }

  lemma SameKey(heap: Heap, o: ObjId, p: ObjId)
    requires WellFormed(heap) && o in heap && p in heap && KeyFor(heap, o) == KeyFor(heap, p)
    ensures Span(heap[o]) == Span(heap[p]) && RegionFor(heap[o]) == RegionFor(heap[p])
    ensures o == p || SameString(heap, o, p)
  {
    assert o == p || SameString(heap, o, p);
  }

  /** The room that the given objects need in a bin of an image. */
  ghost function Demand(heap: Heap, objs: set<ObjId>, r: Region): map<Key, nat>
    requires WellFormed(heap)
  {
    assert forall o, p :: o in objs && o in heap && p in objs && p in heap && KeyFor(heap, o) == KeyFor(heap, p) ==>
                            Span(heap[o]) == Span(heap[p])
    by {
      forall o, p | o in objs && o in heap && p in objs && p in heap && KeyFor(heap, o) == KeyFor(heap, p)
        ensures Span(heap[o]) == Span(heap[p])
      {
        SameKey(heap, o, p);
      }
    }
    map o | o in objs && o in heap && RegionFor(heap[o]) == r :: KeyFor(heap, o) := Span(heap[o])
  }

  ghost function Pick(m: map<Key, nat>): (k: Key)
    requires m != map[]
    ensures k in m
  {
    assert m.Keys != {};
    var k :| k in m.Keys;
    k
  }

  ghost function Total(m: map<Key, nat>): nat
    decreases |m|
  {
    if m == map[] then 0 else
    var k := Pick(m);
    assert |(m - {k}).Keys| < |m.Keys| by { assert (m - {k}).Keys == m.Keys - {k}; }
    m[k] + Total(m - {k})
  }

  lemma {:induction false} TotalRemove(m: map<Key, nat>, k: Key)
    requires k in m
    ensures Total(m) == m[k] + Total(m - {k})
    decreases |m|
  {
    var j := Pick(m);
    if j != k {
      assert |(m - {j}).Keys| < |m.Keys| by { assert (m - {j}).Keys == m.Keys - {j}; }
      assert |(m - {k}).Keys| < |m.Keys| by { assert (m - {k}).Keys == m.Keys - {k}; }
      TotalRemove(m - {j}, k);
      TotalRemove(m - {k}, j);
      assert m - {j} - {k} == m - {k} - {j};
    }
  }

  lemma TotalInsert(m: map<Key, nat>, k: Key, v: nat)
    requires k !in m
    ensures Total(m[k := v]) == Total(m) + v
  {
    TotalRemove(m[k := v], k);
    assert m[k := v] - {k} == m;
  }

  ghost predicate DemandMet(heap: Heap, st: Layout)
    requires WellFormed(heap)
  {
    forall r: Region :: r.bin.Mirror() ==> MetIn(heap, st, r)
  }

  ghost predicate MetIn(heap: Heap, st: Layout, r: Region)
    requires WellFormed(heap)
  {
    st.Size(r) == Total(Demand(heap, st.slots.Keys, r))
  }

  ghost predicate NewKey(heap: Heap, objs: set<ObjId>, o: ObjId)
    requires o in heap
  {
    forall p :: p in objs && p in heap ==> KeyFor(heap, p) != KeyFor(heap, o)
  }

  lemma DemandGrows(heap: Heap, objs: set<ObjId>, o: ObjId, r: Region)
    requires WellFormed(heap) && o in heap && NewKey(heap, objs, o)
    ensures Total(Demand(heap, objs + {o}, r)) ==
            Total(Demand(heap, objs, r)) + if RegionFor(heap[o]) == r then Span(heap[o]) else 0
  {
    var before, after := Demand(heap, objs, r), Demand(heap, objs + {o}, r);
    if RegionFor(heap[o]) == r {
      assert KeyFor(heap, o) !in before;
      assert after == before[KeyFor(heap, o) := Span(heap[o])];
      TotalInsert(before, KeyFor(heap, o), Span(heap[o]));
    } else {
      assert after == before;
    }
  }

  lemma FirstOfItsKey(heap: Heap, st: Layout, o: ObjId)
    requires Slotted(heap, st) && o in heap && o !in st.slots
    requires heap[o].kind.StringObject? ==> heap[o].kind.value in st.interned && st.interned[heap[o].kind.value] == o
    ensures NewKey(heap, st.slots.Keys, o)
  {
    forall p | p in st.slots ensures p in heap && KeyFor(heap, p) != KeyFor(heap, o) {
      NoEqualYet(heap, st, o, p);
    }
  }

  lemma AssignedSize(heap: Heap, st: Layout, o: ObjId, r: Region)
    requires o in heap
    ensures Assigned(heap, st, o).slots.Keys == st.slots.Keys + {o}
    ensures Assigned(heap, st, o).Size(r) == st.Size(r) + if RegionFor(heap[o]) == r then Span(heap[o]) else 0
  {
  }

  lemma AssignedMeets(heap: Heap, st: Layout, o: ObjId, r: Region)
    requires WellFormed(heap) && Slotted(heap, st) && o in heap && o !in st.slots && MetIn(heap, st, r)
    requires heap[o].kind.StringObject? ==> heap[o].kind.value in st.interned && st.interned[heap[o].kind.value] == o
    ensures MetIn(heap, Assigned(heap, st, o), r)
  {
    FirstOfItsKey(heap, st, o);
    DemandGrows(heap, st.slots.Keys, o, r);
    AssignedSize(heap, st, o, r);
  }

  lemma SharingMeets(heap: Heap, st: Layout, o: ObjId, c: ObjId, r: Region)
    requires WellFormed(heap) && o in heap && c in heap && c in st.slots && c in st.words && SameString(heap, o, c)
    requires MetIn(heap, st, r)
    ensures MetIn(heap, Sharing(st, o, c), r)
  {
    SameKey(heap, o, c);
    var before, after := Demand(heap, st.slots.Keys, r), Demand(heap, Sharing(st, o, c).slots.Keys, r);
    assert RegionFor(heap[o]) == r ==> KeyFor(heap, c) in before;
    assert after == before;
  }

  lemma CalculatedMeets(heap: Heap, st: Layout, o: ObjId)
    requires WellFormed(heap) && Inv(heap, st) && o in heap && o !in st.slots && !heap[o].inBootImage
    requires DemandMet(heap, st)
    ensures DemandMet(heap, Calculated(heap, st, o))
  {
    forall r: Region | r.bin.Mirror() ensures MetIn(heap, Calculated(heap, st, o), r) {
      assert MetIn(heap, st, r);
      if !heap[o].kind.StringObject? {
        AssignedMeets(heap, st, o, r);
      } else {
        var c, s := InternedAs(heap, st, o), Interning(heap, st, o);
        InterningSlotted(heap, st, o);
        assert MetIn(heap, s, r);
        if c == o {
          AssignedMeets(heap, s, o, r);
        } else {
          assert SameString(heap, o, c);
          if c !in s.slots {
            AssignedMeets(heap, s, c, r);
          }
          SharingMeets(heap, if c in s.slots then s else Assigned(heap, s, c), o, c, r);
        }
      }
    }
  }

  /** Native arrays take no room from objects. */
  lemma {:induction false} NativeElsewhere(st: Layout, r: Region, a: NativeArray, k: nat, q: Region)
    requires q != r
    ensures NativeAllocated(st, r, a, k).Size(q) == st.Size(q)
    ensures NativeAllocated(st, r, a, k).slots == st.slots
  {
    if k > 0 {
      NativeElsewhere(st, r, a, k - 1, q);
    }
  }

  lemma NativeMeets(heap: Heap, st: Layout, id: ArrayId)
    requires WellFormed(heap) && DemandMet(heap, st) && id.owner in heap && id.index < |heap[id.owner].natives|
    ensures DemandMet(heap, NativeAdded(heap, st, id))
  {
    var a := heap[id.owner].natives[id.index];
    forall r: Region | r.bin.Mirror() ensures MetIn(heap, NativeAdded(heap, st, id), r) {
      assert MetIn(heap, st, r);
      NativeElsewhere(st, Region(heap[id.owner].image, a.bin), a, a.count, r);
    }
  }

  /** After any steps, every bin of objects is exactly as large as the objects with a slot need it. */
  lemma {:induction false} ReplayMeets(heap: Heap, steps: seq<Step>)
    requires WellFormed(heap)
    ensures DemandMet(heap, Replay(heap, steps))
  {
    if steps == [] {
      forall r: Region | r.bin.Mirror() ensures MetIn(heap, EMPTY, r) {
        assert Demand(heap, {}, r) == map[];
      }
    } else {
      var st, step := Replay(heap, steps[..|steps| - 1]), steps[|steps| - 1];
      ReplayMeets(heap, steps[..|steps| - 1]);
      ReplayInv(heap, steps[..|steps| - 1]);
      if Enabled(heap, st, step) {
        match step
        case Place(o) => CalculatedMeets(heap, st, o);
        case Forward(id) => NativeMeets(heap, st, id);
      }
    }
  }

  /** The objects that go to an image. */
  function Written(heap: Heap): set<ObjId> {
    set o | o in heap && !heap[o].inBootImage
  }

  /** The room that the objects of the heap need in a bin: equal strings need it once. */
  ghost function BinDemand(heap: Heap, r: Region): nat
    requires WellFormed(heap)
  {
    Total(Demand(heap, Written(heap), r))
  }

  lemma AllSlotted(heap: Heap, st: Layout)
    requires Slotted(heap, st) && Written(heap) <= st.slots.Keys
    ensures st.slots.Keys == Written(heap)
  {
    forall o | o in st.slots ensures o in Written(heap) {
      assert SlotFor(heap, st, o);
    }
  }

  /** Once every object has a slot, the size of a bin is a matter of the heap alone. */
  lemma SizesOfHeap(heap: Heap, steps: seq<Step>, r: Region)
    requires WellFormed(heap) && r.bin.Mirror() && Written(heap) <= Replay(heap, steps).slots.Keys
    ensures Replay(heap, steps).Size(r) == BinDemand(heap, r)
  {
    ReplayMeets(heap, steps);
    assert MetIn(heap, Replay(heap, steps), r);
    ReplayInv(heap, steps);
    AllSlotted(heap, Replay(heap, steps));
  }

  /** The objects of a bin need less than 128 MiB without this one. */
  ghost predicate FitsWithout(heap: Heap, o: ObjId)
    requires WellFormed(heap) && o in heap
  {
    BinDemand(heap, RegionFor(heap[o])) < BIN_SHIFT + Span(heap[o])
  }

  /** No bin needs 128 MiB without its smallest object, so the last one can be any. */
  ghost predicate HeapFits(heap: Heap)
    requires WellFormed(heap)
  {
    forall o :: o in Written(heap) ==> FitsWithout(heap, o)
  }

  /** The bin slot of an object can be read back from its lock word. */
  predicate SlotReadable(st: Layout, o: ObjId) {
    o in st.slots && st.slots[o] < |st.allocs| && Readable(st.allocs[st.slots[o]].offset)
  }

  /** If the heap fits, all slots can be read back. */
  lemma AllReadable(heap: Heap, steps: seq<Step>, o: ObjId)
    requires WellFormed(heap) && HeapFits(heap) && Written(heap) <= Replay(heap, steps).slots.Keys
    requires o in Replay(heap, steps).slots
    ensures SlotFor(heap, Replay(heap, steps), o) && SlotReadable(Replay(heap, steps), o)
  {
    var st := Replay(heap, steps);
    ReplayInv(heap, steps);
    assert SlotFor(heap, st, o);
    assert Inside(st, st.allocs[st.slots[o]]);
    AllSlotted(heap, st);
    assert FitsWithout(heap, o);
    SizesOfHeap(heap, steps, RegionFor(heap[o]));
    ReadableRange(st.allocs[st.slots[o]].offset);
  }

  /** Byte p of the bin belongs to the object. */
  predicate Covers(st: Layout, r: Region, o: ObjId, p: nat) {
    && o in st.slots && st.slots[o] < |st.allocs| && st.allocs[st.slots[o]].region == r
    && st.allocs[st.slots[o]].offset <= p < st.allocs[st.slots[o]].offset + st.allocs[st.slots[o]].span
  }

  ghost predicate ByteCovered(st: Layout, r: Region, p: nat) {
    exists o :: Covers(st, r, o, p)
  }

  /** There are no gaps in a bin. */
  ghost predicate Covered(st: Layout, r: Region) {
    forall p: nat :: p < st.Size(r) ==> ByteCovered(st, r, p)
  }

  lemma CoveredOn(st: Layout, t: Layout, r: Region)
    requires Covered(st, r) && Extends(st, t) && st.Size(r) == t.Size(r)
    ensures Covered(t, r)
  {
    forall p: nat | p < t.Size(r) ensures ByteCovered(t, r, p) {
      assert ByteCovered(st, r, p);
      var o :| Covers(st, r, o, p);
      assert Covers(t, r, o, p);
    }
  }

  lemma AssignedCovered(heap: Heap, st: Layout, o: ObjId, r: Region)
    requires o in heap && o !in st.slots && Covered(st, r)
    ensures Covered(Assigned(heap, st, o), r)
  {
    var t := Assigned(heap, st, o);
    forall p: nat | p < t.Size(r) ensures ByteCovered(t, r, p) {
      if p < st.Size(r) {
        assert ByteCovered(st, r, p);
        var q :| Covers(st, r, q, p);
        assert Covers(t, r, q, p);
      } else {
        assert Covers(t, r, o, p);
      }
    }
  }

  lemma CalculatedCovered(heap: Heap, st: Layout, o: ObjId, r: Region)
    requires Interned(heap, st) && st.slots.Keys == st.words.Keys && o in heap && o !in st.slots && Covered(st, r)
    ensures Covered(Calculated(heap, st, o), r)
  {
    if !heap[o].kind.StringObject? {
      AssignedCovered(heap, st, o, r);
    } else {
      var c, s := InternedAs(heap, st, o), Interning(heap, st, o);
      CoveredOn(st, s, r);
      if c == o {
        AssignedCovered(heap, s, o, r);
      } else {
        var t := if c in s.slots then s else Assigned(heap, s, c);
        if c !in s.slots {
          AssignedCovered(heap, s, c, r);
        }
        CoveredOn(t, Sharing(t, o, c), r);
      }
    }
  }

  lemma {:induction false} ReplayCovered(heap: Heap, steps: seq<Step>, r: Region)
    requires WellFormed(heap) && r.bin.Mirror()
    ensures Covered(Replay(heap, steps), r)
  {
    if steps != [] {
      var st, step := Replay(heap, steps[..|steps| - 1]), steps[|steps| - 1];
      ReplayCovered(heap, steps[..|steps| - 1], r);
      ReplayInv(heap, steps[..|steps| - 1]);
      ApplyInv(heap, st, step);
      if Enabled(heap, st, step) {
        match step
        case Place(o) => CalculatedCovered(heap, st, o, r);
        case Forward(id) =>
          var a := heap[id.owner].natives[id.index];
          NativeElsewhere(st, Region(heap[id.owner].image, a.bin), a, a.count, r);
          CoveredOn(st, NativeAdded(heap, st, id), r);
      }
    }
  }

  /** The objects of a bin need 128 MiB even without the largest of them, which has at most 896 MiB. */
  ghost predicate Overfull(heap: Heap, r: Region, largest: nat)
    requires WellFormed(heap)
  {
    && r.bin.Mirror() && largest <= 7 * BIN_SHIFT && BIN_SHIFT + largest <= BinDemand(heap, r)
    && forall o :: o in Written(heap) && RegionFor(heap[o]) == r ==> Span(heap[o]) <= largest
  }

  /** Then every order puts some object where its slot cannot be read back. */
  lemma SomeUnreadable(heap: Heap, steps: seq<Step>, r: Region, largest: nat) returns (o: ObjId)
    requires WellFormed(heap) && Written(heap) <= Replay(heap, steps).slots.Keys && Overfull(heap, r, largest)
    ensures o in Written(heap) && SlotFor(heap, Replay(heap, steps), o) && !SlotReadable(Replay(heap, steps), o)
  {
    var st, p := Replay(heap, steps), BIN_SHIFT + largest - 1;
    SizesOfHeap(heap, steps, r);
    ReplayCovered(heap, steps, r);
    assert ByteCovered(st, r, p);
    o :| Covers(st, r, o, p);
    ReplayInv(heap, steps);
    assert SlotFor(heap, st, o);
    ReadableRange(st.allocs[st.slots[o]].offset);
  }
}
