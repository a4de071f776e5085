/**
 * The orders in which objects may get their bin slots (compiler/image_writer.cc): for which heaps
 * every order, some order or no order leaves slots that can all be read back.
 */
module ImageOrders {
  import opened BinSlot
  import opened ImageBins
  import opened ImageDemand

  /** All objects have slots. */
  ghost predicate Complete(heap: Heap, steps: seq<Step>) {
    Written(heap) <= Replay(heap, steps).slots.Keys
  }

  ghost predicate AllRead(heap: Heap, steps: seq<Step>) {
    forall o :: o in Written(heap) ==> SlotReadable(Replay(heap, steps), o)
  }

  /** Interned strings have slots. */
  ghost predicate InternedSlotted(st: Layout) {
    forall v :: v in st.interned ==> st.interned[v] in st.slots
  }

  lemma CalculatedSlots(heap: Heap, st: Layout, o: ObjId)
    requires o in heap && Interned(heap, st) && st.slots.Keys == st.words.Keys && InternedSlotted(st)
    ensures InternedSlotted(Calculated(heap, st, o))
    ensures Calculated(heap, st, o).slots.Keys == st.slots.Keys + {o}
  {
  }

  lemma NativeSlots(heap: Heap, st: Layout, id: ArrayId)
    requires WellFormed(heap) && Inv(heap, st) && id.owner in heap && id.index < |heap[id.owner].natives|
    ensures NativeAdded(heap, st, id).slots == st.slots && NativeAdded(heap, st, id).interned == st.interned
  {
    var a := heap[id.owner].natives[id.index];
    NativeInv(st, Region(heap[id.owner].image, a.bin), a, a.count);
  }

  lemma {:induction false} ReplayInterned(heap: Heap, steps: seq<Step>)
    requires WellFormed(heap)
    ensures InternedSlotted(Replay(heap, steps))
  {
    if steps != [] {
      var st, step := Replay(heap, steps[..|steps| - 1]), steps[|steps| - 1];
      ReplayInterned(heap, steps[..|steps| - 1]);
      ReplayInv(heap, steps[..|steps| - 1]);
      if Enabled(heap, st, step) {
        match step
        case Place(o) => CalculatedSlots(heap, st, o);
        case Forward(id) => NativeSlots(heap, st, id);
      }
    }
  }

  /** Placing one more object adds its slot and keeps the others. */
  lemma PlacedNext(heap: Heap, steps: seq<Step>, o: ObjId)
    requires WellFormed(heap) && o in Written(heap) && o !in Replay(heap, steps).slots
    ensures var st, t := Replay(heap, steps), Replay(heap, steps + [Place(o)]);
            && Enabled(heap, st, Place(o)) && t == Calculated(heap, st, o) && Extends(st, t)
            && t.slots.Keys == st.slots.Keys + {o}
  {
    ReplayInv(heap, steps);
    ReplayInterned(heap, steps);
    ReplayOn(heap, steps, Place(o));
    ApplyInv(heap, Replay(heap, steps), Place(o));
    CalculatedSlots(heap, Replay(heap, steps), o);
  }

  /** Places a set of objects, one after the other. */
  lemma PlaceAll(heap: Heap, steps: seq<Step>, objs: set<ObjId>) returns (all: seq<Step>)
    requires WellFormed(heap) && objs <= Written(heap)
    ensures Replay(heap, all).slots.Keys == Replay(heap, steps).slots.Keys + objs
    ensures Extends(Replay(heap, steps), Replay(heap, all))
    decreases objs
  {
    if objs == {} {
      all := steps;
    } else {
      var o :| o in objs;
      if o in Replay(heap, steps).slots {
        all := PlaceAll(heap, steps, objs - {o});
      } else {
        PlacedNext(heap, steps, o);
        all := PlaceAll(heap, steps + [Place(o)], objs - {o});
        ExtendsOn(Replay(heap, steps), Replay(heap, steps + [Place(o)]), Replay(heap, all));
      }
    }
  }

  /** The objects that need room besides o. */
  function Others(heap: Heap, o: ObjId): set<ObjId>
    requires o in heap
  {
    set p | p in Written(heap) && KeyFor(heap, p) != KeyFor(heap, o)
  }

  lemma DemandWithout(heap: Heap, o: ObjId)
    requires WellFormed(heap) && o in Written(heap)
    ensures var r := RegionFor(heap[o]);
            Total(Demand(heap, Others(heap, o), r)) + Span(heap[o]) == BinDemand(heap, r)
  {
    var r, k := RegionFor(heap[o]), KeyFor(heap, o);
    DemandOfOthers(heap, o, r);
    TotalRemove(Demand(heap, Written(heap), r), k);
  }

  lemma DemandOfOthers(heap: Heap, o: ObjId, r: Region)
    requires WellFormed(heap) && o in Written(heap) && r == RegionFor(heap[o])
    ensures var all, k := Demand(heap, Written(heap), r), KeyFor(heap, o);
            k in all && all[k] == Span(heap[o]) && Demand(heap, Others(heap, o), r) == all - {k}
  {
    var all, k, others := Demand(heap, Written(heap), r), KeyFor(heap, o), Demand(heap, Others(heap, o), r);
    assert others.Keys == all.Keys - {k};
    forall x | x in others ensures others[x] == all[x] {
      var p :| p in Others(heap, o) && p in heap && RegionFor(heap[p]) == r && KeyFor(heap, p) == x;
    }
  }

  /** An object placed before any with the same key gets the end of its bin. */
  lemma FirstAtEnd(heap: Heap, st: Layout, o: ObjId)
    requires o in heap && Interned(heap, st) && st.slots.Keys == st.words.Keys && InternedSlotted(st)
    requires NewKey(heap, st.slots.Keys, o)
    ensures var t := Calculated(heap, st, o);
            o in t.slots && t.slots[o] < |t.allocs| && t.allocs[t.slots[o]].offset == st.Size(RegionFor(heap[o]))
  {
    assert heap[o].kind.StringObject? ==> heap[o].kind.value !in st.interned by {
      assert forall v :: v in st.interned ==> KeyFor(heap, st.interned[v]) == Text(v);
    }
  }

  /** The size of a bin when exactly the given objects have slots. */
  lemma SizeOfPart(heap: Heap, steps: seq<Step>, objs: set<ObjId>, r: Region)
    requires WellFormed(heap) && r.bin.Mirror() && Replay(heap, steps).slots.Keys == objs
    ensures Replay(heap, steps).Size(r) == Total(Demand(heap, objs, r))
  {
    ReplayMeets(heap, steps);
    assert MetIn(heap, Replay(heap, steps), r);
  }

  /** An order in which o and its equals come last puts them behind all else in the bin. */
  lemma PlacedLast(heap: Heap, o: ObjId) returns (steps: seq<Step>)
    requires WellFormed(heap) && o in Written(heap)
    ensures Complete(heap, steps)
    ensures var st := Replay(heap, steps);
            && o in st.slots && st.slots[o] < |st.allocs|
            && st.allocs[st.slots[o]].offset + Span(heap[o]) == BinDemand(heap, RegionFor(heap[o]))
  {
    var first := PlaceAll(heap, [], Others(heap, o));
    assert Replay(heap, first).slots.Keys == Others(heap, o);
    SizeOfPart(heap, first, Others(heap, o), RegionFor(heap[o]));
    DemandWithout(heap, o);
    PlacedNext(heap, first, o);
    ReplayInterned(heap, first);
    FirstAtEnd(heap, Replay(heap, first), o);
    steps := PlaceAll(heap, first + [Place(o)], Written(heap));
  }

  /** No bin needs 1 GiB. */
  ghost predicate Moderate(heap: Heap)
    requires WellFormed(heap)
  {
    forall o :: o in Written(heap) ==> BinDemand(heap, RegionFor(heap[o])) < 8 * BIN_SHIFT
  }

  lemma FitsAlways(heap: Heap, steps: seq<Step>)
    requires WellFormed(heap) && HeapFits(heap) && Complete(heap, steps)
    ensures AllRead(heap, steps)
  {
    forall o | o in Written(heap) ensures SlotReadable(Replay(heap, steps), o) {
      AllReadable(heap, steps, o);
    }
  }

  /** An object without which the bin is still too full must not come last. */
  lemma BadOrder(heap: Heap, o: ObjId) returns (steps: seq<Step>)
    requires WellFormed(heap) && Moderate(heap) && o in Written(heap) && !FitsWithout(heap, o)
    ensures Complete(heap, steps) && !AllRead(heap, steps)
  {
    steps := PlacedLast(heap, o);
    ReadableRange(BinDemand(heap, RegionFor(heap[o])) - Span(heap[o]));
    assert !SlotReadable(Replay(heap, steps), o);
  }

  /** Every order leaves readable slots exactly if the heap fits. */
  lemma EveryOrder(heap: Heap)
    requires WellFormed(heap) && Moderate(heap)
    ensures HeapFits(heap) <==> forall steps :: Complete(heap, steps) ==> AllRead(heap, steps)
  {
    if HeapFits(heap) {
      forall steps | Complete(heap, steps) ensures AllRead(heap, steps) {
        FitsAlways(heap, steps);
      }
    } else {
      var o :| o in Written(heap) && !FitsWithout(heap, o);
      var steps := BadOrder(heap, o);
    }
  }

  /** Every bin needs less than 128 MiB without one of its objects, then also without its largest. */
  ghost predicate HeapMayFit(heap: Heap)
    requires WellFormed(heap)
  {
    forall o :: o in Written(heap) ==> BinMayFit(heap, RegionFor(heap[o]))
  }

  ghost predicate BinMayFit(heap: Heap, r: Region)
    requires WellFormed(heap)
  {
    exists p :: p in Written(heap) && RegionFor(heap[p]) == r && FitsWithout(heap, p)
  }

  lemma {:induction false} TotalSubmap(m: map<Key, nat>, n: map<Key, nat>)
    requires forall k :: k in m ==> k in n && m[k] == n[k]
    ensures Total(m) <= Total(n)
    decreases |m|
  {
    if m != map[] {
      var k := Pick(m);
      assert |(m - {k}).Keys| < |m.Keys| by { assert (m - {k}).Keys == m.Keys - {k}; }
      TotalSubmap(m - {k}, n - {k});
      TotalRemove(n, k);
    }
  }

  /** What can be left out leaves room. */
  lemma DemandBelow(heap: Heap, objs: set<ObjId>, p: ObjId)
    requires WellFormed(heap) && p in Written(heap) && objs <= Others(heap, p)
    ensures var r := RegionFor(heap[p]); Total(Demand(heap, objs, r)) + Span(heap[p]) <= BinDemand(heap, r)
  {
    DemandWithout(heap, p);
    TotalSubmap(Demand(heap, objs, RegionFor(heap[p])), Demand(heap, Others(heap, p), RegionFor(heap[p])));
  }

  /** The objects that can come last. */
  ghost function Lasts(heap: Heap): set<ObjId>
    requires WellFormed(heap)
  {
    set o | o in Written(heap) && FitsWithout(heap, o)
  }

  /** Those that cannot have other keys. */
  lemma LastsApart(heap: Heap, p: ObjId)
    requires WellFormed(heap) && p in Lasts(heap)
    ensures Written(heap) - Lasts(heap) <= Others(heap, p)
  {
    forall q | q in Written(heap) - Lasts(heap) ensures q in Others(heap, p) {
      if KeyFor(heap, q) == KeyFor(heap, p) {
        SameKey(heap, q, p);
        assert false;
      }
    }
  }

  /** An object placed before those that can come last is read back. */
  lemma EarlyRead(heap: Heap, first: seq<Step>, o: ObjId)
    requires WellFormed(heap) && HeapMayFit(heap) && o in Written(heap) - Lasts(heap)
    requires Replay(heap, first).slots.Keys == Written(heap) - Lasts(heap)
    ensures SlotReadable(Replay(heap, first), o)
  {
    var st, r := Replay(heap, first), RegionFor(heap[o]);
    assert BinMayFit(heap, r);
    var p :| p in Written(heap) && RegionFor(heap[p]) == r && FitsWithout(heap, p);
    LastsApart(heap, p);
    DemandBelow(heap, Written(heap) - Lasts(heap), p);
    SizeOfPart(heap, first, Written(heap) - Lasts(heap), r);
    ReplayInv(heap, first);
    assert SlotFor(heap, st, o);
    assert Inside(st, st.allocs[st.slots[o]]);
    ReadableRange(st.allocs[st.slots[o]].offset);
  }

  /** An object that can come last is read back in every order. */
  lemma LateRead(heap: Heap, steps: seq<Step>, o: ObjId)
    requires WellFormed(heap) && Complete(heap, steps) && o in Lasts(heap)
    ensures SlotReadable(Replay(heap, steps), o)
  {
    var st := Replay(heap, steps);
    ReplayInv(heap, steps);
    assert SlotFor(heap, st, o);
    assert Inside(st, st.allocs[st.slots[o]]);
    SizesOfHeap(heap, steps, RegionFor(heap[o]));
    ReadableRange(st.allocs[st.slots[o]].offset);
  }

  /** With the objects that can come last at the end, all are read back. */
  lemma GoodOrder(heap: Heap) returns (steps: seq<Step>)
    requires WellFormed(heap) && HeapMayFit(heap)
    ensures Complete(heap, steps) && AllRead(heap, steps)
  {
    var early := Written(heap) - Lasts(heap);
    var first := PlaceAll(heap, [], early);
    assert Replay(heap, first).slots.Keys == early;
    steps := PlaceAll(heap, first, Lasts(heap));
    forall o | o in Written(heap) ensures SlotReadable(Replay(heap, steps), o) {
      if o in Lasts(heap) {
        LateRead(heap, steps, o);
      } else {
        EarlyRead(heap, first, o);
        ReadOn(Replay(heap, first), Replay(heap, steps), o);
      }
    }
  }

  lemma ReadOn(st: Layout, t: Layout, o: ObjId)
    requires Extends(st, t) && SlotReadable(st, o)
    ensures SlotReadable(t, o)
  {
  }

  /** Some order leaves readable slots exactly if no bin is too full without its largest object. */
  lemma SomeOrder(heap: Heap)
    requires WellFormed(heap) && Moderate(heap)
    ensures HeapMayFit(heap) <==> exists steps :: Complete(heap, steps) && AllRead(heap, steps)
  {
    if HeapMayFit(heap) {
      var steps := GoodOrder(heap);
    } else {
      var o :| o in Written(heap) && !BinMayFit(heap, RegionFor(heap[o]));
      NeverFits(heap, o);
      forall steps | Complete(heap, steps) ensures !AllRead(heap, steps) {
        var r := RegionFor(heap[o]);
        var q := SomeUnreadable(heap, steps, r, BinDemand(heap, r) - BIN_SHIFT);
      }
    }
  }

  lemma NeverFits(heap: Heap, o: ObjId)
    requires WellFormed(heap) && Moderate(heap) && o in Written(heap) && !BinMayFit(heap, RegionFor(heap[o]))
    ensures var r := RegionFor(heap[o]);
            BIN_SHIFT <= BinDemand(heap, r) && Overfull(heap, r, BinDemand(heap, r) - BIN_SHIFT)
  {
    var r := RegionFor(heap[o]);
    forall p | p in Written(heap) && RegionFor(heap[p]) == r ensures BIN_SHIFT + Span(heap[p]) <= BinDemand(heap, r) {
      assert !FitsWithout(heap, p);
    }
  }

  /** Between the two the order decides. */
  lemma OrderDecides(heap: Heap) returns (good: seq<Step>, bad: seq<Step>)
    requires WellFormed(heap) && Moderate(heap) && HeapMayFit(heap) && !HeapFits(heap)
    ensures Complete(heap, good) && AllRead(heap, good)
    ensures Complete(heap, bad) && !AllRead(heap, bad)
  {
    good := GoodOrder(heap);
    var o :| o in Written(heap) && !FitsWithout(heap, o);
    bad := BadOrder(heap, o);
  }

  /** Two objects that share a bin and are not equal strings. */
  ghost predicate PairInBin(heap: Heap, a: ObjId, b: ObjId) {
    && WellFormed(heap) && a in heap && b in heap && Written(heap) == {a, b}
    && RegionFor(heap[a]) == RegionFor(heap[b]) && KeyFor(heap, a) != KeyFor(heap, b)
  }

  lemma DemandOfPair(heap: Heap, a: ObjId, b: ObjId)
    requires PairInBin(heap, a, b)
    ensures BinDemand(heap, RegionFor(heap[a])) == Span(heap[a]) + Span(heap[b])
  {
    var r := RegionFor(heap[a]);
    assert Demand(heap, {}, r) == map[];
    DemandGrows(heap, {}, b, r);
    assert {} + {b} == Others(heap, a);
    DemandWithout(heap, a);
  }

  /** Of a large and a small object the small one must not come last. */
  lemma PairDecides(heap: Heap, a: ObjId, b: ObjId)
    requires PairInBin(heap, a, b) && Span(heap[b]) < BIN_SHIFT <= Span(heap[a]) && Span(heap[a]) < 7 * BIN_SHIFT
    ensures Moderate(heap) && HeapMayFit(heap) && !HeapFits(heap)
  {
    var r := RegionFor(heap[a]);
    DemandOfPair(heap, a, b);
    assert !HeapFits(heap) by {
      assert b in Written(heap) && !FitsWithout(heap, b);
    }
    assert BinMayFit(heap, r) by {
      assert a in Written(heap) && FitsWithout(heap, a);
    }
    forall o | o in Written(heap) ensures RegionFor(heap[o]) == r {
      assert o in {a, b};
    }
  }

  /** 128 MiB and 8 bytes: a heap for which the order decides. */
  lemma LargeAndSmall(heap: Heap)
    requires heap == map[0 := Obj(BIN_SHIFT, OtherObject, 0, false, [], []), 1 := Obj(8, OtherObject, 0, false, [], [])]
    ensures WellFormed(heap) && Moderate(heap) && HeapMayFit(heap) && !HeapFits(heap)
  {
    assert Written(heap) == {0, 1};
    assert Span(heap[0]) == BIN_SHIFT && Span(heap[1]) == 8;
    PairDecides(heap, 0, 1);
  }
}
