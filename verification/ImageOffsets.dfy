/**
 * The second stage of the image layout (compiler/image_writer.cc, CalculateNewObjectOffsets): the
 * bins are put one after the other, and every slot becomes an offset in its image.
 */
module ImageOffsets {
  import opened Align
  import opened ImageBins

  /** The end of the image header and the alignments of the target. */
  datatype Target = Target(begin: nat, methodAlignment: nat, pointerSize: nat) {
    predicate Valid() {
      begin % OBJECT_ALIGNMENT == 0 && methodAlignment > 0 && pointerSize > 0
    }
  }

  /** Methods and conflict tables start aligned. */
  function AlignBin(target: Target, number: nat, offset: nat): (r: nat)
    requires target.Valid()
    ensures offset <= r && (number <= MIRROR_BINS ==> r == offset)
  {
    if number == 7 || number == 8 then RoundUp(offset, target.methodAlignment)
    else if number == 9 then RoundUp(offset, target.pointerSize)
    else offset
  }

  /** bin_slot_offsets_: where bin n of an image starts. */
  function BinStart(target: Target, st: Layout, image: nat, n: nat): nat
    requires target.Valid() && n <= BIN_COUNT
  {
    if n == 0 then target.begin
    else AlignBin(target, n, BinStart(target, st, image, n - 1) + st.Size(Region(image, BinAt(n - 1))))
  }

  /** Where the bins before bin n end. */
  function BinsEnd(target: Target, st: Layout, image: nat, n: nat): nat
    requires target.Valid() && n <= BIN_COUNT
  {
    if n == 0 then target.begin else BinStart(target, st, image, n - 1) + st.Size(Region(image, BinAt(n - 1)))
  }

  lemma BinStartAfter(target: Target, st: Layout, image: nat, n: nat)
    requires target.Valid() && n < BIN_COUNT
    ensures BinStart(target, st, image, n) == AlignBin(target, n, BinsEnd(target, st, image, n))
  {
  }

  /** The least multiple of n that is not before x. */
  predicate NextAligned(x: nat, n: nat, r: nat)
    requires n > 0
  {
    r % n == 0 && x <= r < x + n
  }

  /**
   * Bins follow each other from the header on, those of methods (7 and 8) from the next multiple of
   * the method alignment, that of conflict tables (9) from the next multiple of the pointer size.
   */
  predicate BinsInARow(target: Target, st: Layout, image: nat, offsets: seq<nat>)
    requires target.Valid()
  {
    && |offsets| == 12 && offsets[0] == target.begin
    && forall n :: 1 <= n < 12 ==> StartsBehind(target, st, image, offsets, n)
  }

  predicate StartsBehind(target: Target, st: Layout, image: nat, offsets: seq<nat>, n: nat)
    requires target.Valid() && 1 <= n < |offsets| == 12
  {
    var end := offsets[n - 1] + st.Size(Region(image, BinAt(n - 1)));
    if n == 7 || n == 8 then NextAligned(end, target.methodAlignment, offsets[n])
    else if n == 9 then NextAligned(end, target.pointerSize, offsets[n])
    else offsets[n] == end
  }

  /** The loop over the bins of one image. */
  method CalculateBinOffsets(target: Target, sizes: map<Region, nat>, image: nat, ghost st: Layout)
    returns (offsets: seq<nat>)
    requires target.Valid() && sizes == st.sizes
    ensures |offsets| == BIN_COUNT && BinsInARow(target, st, image, offsets)
    ensures forall n :: 0 <= n < BIN_COUNT ==> offsets[n] == BinStart(target, st, image, n)
  {
    offsets := [];
    var binOffset, i := target.begin, 0;
    while i < BIN_COUNT
      invariant 0 <= i == |offsets| <= BIN_COUNT && binOffset == BinsEnd(target, st, image, i)
      invariant forall n :: 0 <= n < i ==> offsets[n] == BinStart(target, st, image, n)
    {
      BinStartAfter(target, st, image, i);
      binOffset := AlignBin(target, i, binOffset);
      offsets := offsets + [binOffset];
      var r := Region(image, BinAt(i));
      binOffset := binOffset + (if r in sizes then sizes[r] else 0);
      i := i + 1;
    }
    StartsInARow(target, st, image, offsets);
  }

  lemma StartsInARow(target: Target, st: Layout, image: nat, offsets: seq<nat>)
    requires target.Valid() && |offsets| == BIN_COUNT
    requires forall n :: 0 <= n < BIN_COUNT ==> offsets[n] == BinStart(target, st, image, n)
    ensures BinsInARow(target, st, image, offsets)
  {
    forall n | 1 <= n < 12 ensures StartsBehind(target, st, image, offsets, n) {
      BinStartAfter(target, st, image, n);
      assert offsets[n - 1] == BinStart(target, st, image, n - 1);
    }
  }

  lemma {:induction false} MirrorStart(target: Target, st: Layout, image: nat, n: nat)
    requires target.Valid() && n <= MIRROR_BINS
    ensures BinStart(target, st, image, n) == target.begin + BinSizeSum(st, image, n)
  {
    if n > 0 {
      MirrorStart(target, st, image, n - 1);
    }
  }

  /** A later bin starts after an earlier one has ended. */
  lemma {:induction false} BinsAscend(target: Target, st: Layout, image: nat, m: nat, n: nat)
    requires target.Valid() && m < n <= BIN_COUNT
    ensures BinStart(target, st, image, m) + st.Size(Region(image, BinAt(m))) <= BinStart(target, st, image, n)
  {
    if m + 1 < n {
      BinsAscend(target, st, image, m, n - 1);
    }
  }

  lemma {:induction false} MirrorAligned(target: Target, st: Layout, image: nat, n: nat)
    requires target.Valid() && n <= MIRROR_BINS && ObjectAligned(st)
    ensures BinStart(target, st, image, n) % OBJECT_ALIGNMENT == 0
  {
    if n > 0 {
      MirrorAligned(target, st, image, n - 1);
      var r := Region(image, BinAt(n - 1));
      assert st.Size(r) % OBJECT_ALIGNMENT == 0;
      AddMultiple(BinStart(target, st, image, n - 1), st.Size(r), OBJECT_ALIGNMENT);
    }
  }

  /** The offset of an allocation in its image. */
  function Offset(target: Target, st: Layout, a: Alloc): nat
    requires target.Valid()
  {
    BinStart(target, st, a.region.image, a.region.bin.Number()) + a.offset
  }

  /** Mirror objects fill the image from the header to image_end_; native data comes after that. */
  lemma InItsPart(target: Target, st: Layout, a: Alloc)
    requires target.Valid() && EndsAddUp(st) && Inside(st, a)
    ensures var offset, end := Offset(target, st, a), target.begin + st.End(a.region.image);
            if a.region.bin.Mirror() then target.begin <= offset && offset + a.span <= end else end <= offset
  {
    var image, n := a.region.image, a.region.bin.Number();
    MirrorStart(target, st, image, MIRROR_BINS);
    if n < MIRROR_BINS {
      MirrorStart(target, st, image, n);
      BinsAscend(target, st, image, n, MIRROR_BINS);
      assert BinAt(n) == a.region.bin;
    } else if n > MIRROR_BINS {
      BinsAscend(target, st, image, MIRROR_BINS, n);
    }
  }

  lemma OffsetAligned(target: Target, st: Layout, a: Alloc)
    requires target.Valid() && ObjectAligned(st) && a.region.bin.Mirror() && a.offset % OBJECT_ALIGNMENT == 0
    ensures Offset(target, st, a) % OBJECT_ALIGNMENT == 0
  {
    MirrorAligned(target, st, a.region.image, a.region.bin.Number());
    AddMultiple(BinStart(target, st, a.region.image, a.region.bin.Number()), a.offset, OBJECT_ALIGNMENT);
  }

  predicate Disjoint(x: nat, xSpan: nat, y: nat, ySpan: nat) {
    x + xSpan <= y || y + ySpan <= x
  }

  lemma InOrderDisjoint(target: Target, st: Layout, a: Alloc, b: Alloc)
    requires target.Valid() && Inside(st, a) && Inside(st, b) && a.region.image == b.region.image
    requires Before(a, b) || Before(b, a)
    requires a.region.bin.Number() <= b.region.bin.Number()
    ensures Disjoint(Offset(target, st, a), a.span, Offset(target, st, b), b.span)
  {
    var m, n := a.region.bin.Number(), b.region.bin.Number();
    assert BinAt(m) == a.region.bin && BinAt(n) == b.region.bin;
    if m < n {
      BinsAscend(target, st, a.region.image, m, n);
    }
  }

  /** No two allocations of an image overlap, objects and native data alike. */
  lemma AllocationsDisjoint(target: Target, st: Layout, i: nat, j: nat)
    requires target.Valid() && Bumped(st) && i < j < |st.allocs|
    requires st.allocs[i].region.image == st.allocs[j].region.image
    ensures var a, b := st.allocs[i], st.allocs[j];
            Disjoint(Offset(target, st, a), a.span, Offset(target, st, b), b.span)
  {
    var a, b := st.allocs[i], st.allocs[j];
    assert Inside(st, a) && Inside(st, b) && Before(a, b);
    if a.region.bin.Number() <= b.region.bin.Number() {
      InOrderDisjoint(target, st, a, b);
    } else {
      InOrderDisjoint(target, st, b, a);
    }
  }

  /** The offset of an object with a slot. */
  function ObjectOffset(target: Target, st: Layout, o: ObjId): nat
    requires target.Valid() && o in st.slots && st.slots[o] < |st.allocs|
  {
    Offset(target, st, st.allocs[st.slots[o]])
  }

  /** Every object is aligned and between the header and the end of its image. */
  lemma ObjectPlaced(heap: Heap, target: Target, st: Layout, o: ObjId)
    requires target.Valid() && Inv(heap, st) && o in st.slots
    ensures SlotFor(heap, st, o)
    ensures var offset := ObjectOffset(target, st, o);
            && offset % OBJECT_ALIGNMENT == 0
            && target.begin <= offset && offset + heap[o].size <= target.begin + st.End(heap[o].image)
  {
    assert SlotFor(heap, st, o);
    var a := st.allocs[st.slots[o]];
    assert Inside(st, a);
    InItsPart(target, st, a);
    OffsetAligned(target, st, a);
  }

  /** Objects of an image are apart, unless they are equal strings, which are in the same place. */
  lemma ObjectsApart(heap: Heap, target: Target, st: Layout, o: ObjId, p: ObjId)
    requires target.Valid() && Inv(heap, st) && o in st.slots && p in st.slots && o != p
    ensures SlotFor(heap, st, o) && SlotFor(heap, st, p)
    ensures if SameString(heap, o, p) then ObjectOffset(target, st, o) == ObjectOffset(target, st, p)
            else heap[o].image == heap[p].image ==>
                   Disjoint(ObjectOffset(target, st, o), Span(heap[o]), ObjectOffset(target, st, p), Span(heap[p]))
  {
    assert SlotFor(heap, st, o) && SlotFor(heap, st, p) && Shared(heap, st, o, p);
    var i, j := st.slots[o], st.slots[p];
    if i != j && heap[o].image == heap[p].image {
      AllocationsDisjoint(target, st, if i < j then i else j, if i < j then j else i);
    }
  }

  /** Element i of a native array is i elements behind its header, after all objects of the image. */
  lemma NativeElement(heap: Heap, target: Target, st: Layout, id: ArrayId, i: nat)
    requires target.Valid() && WellFormed(heap) && Inv(heap, st) && id in st.arrays
    requires id.owner in heap && id.index < |heap[id.owner].natives|
    requires i < heap[id.owner].natives[id.index].count
    ensures var a, h := heap[id.owner].natives[id.index], st.arrays[id];
            && h + 1 + i < |st.allocs|
            && Offset(target, st, st.allocs[h + 1 + i]) == Offset(target, st, st.allocs[h]) + a.header + i * a.element
            && target.begin + st.End(heap[id.owner].image) <= Offset(target, st, st.allocs[h])
  {
    assert ArrayPlaced(heap, st, id);
    var a, h := heap[id.owner].natives[id.index], st.arrays[id];
    ElementAt(st.allocs, h, Region(heap[id.owner].image, a.bin), a, i);
    assert Inside(st, st.allocs[h]);
    InItsPart(target, st, st.allocs[h]);
  }

  predicate OfMethods(bin: Bin) {
    bin == ArtMethodClean || bin == ArtMethodDirty
  }

  /** Methods, and the headers of their arrays, have sizes that are multiples of n. */
  predicate MethodsFit(heap: Heap, n: nat)
    requires n > 0
  {
    forall o, i :: o in heap && 0 <= i < |heap[o].natives| && OfMethods(heap[o].natives[i].bin) ==>
      heap[o].natives[i].header % n == 0 && heap[o].natives[i].element % n == 0
  }

  ghost predicate MethodBinsAligned(st: Layout, n: nat)
    requires n > 0
  {
    && (forall r :: r in st.sizes && OfMethods(r.bin) ==> st.sizes[r] % n == 0)
    && (forall i :: 0 <= i < |st.allocs| && OfMethods(st.allocs[i].region.bin) ==> st.allocs[i].offset % n == 0)
  }

  lemma AllocateMethods(st: Layout, r: Region, span: nat, n: nat)
    requires n > 0 && MethodBinsAligned(st, n) && (OfMethods(r.bin) ==> span % n == 0)
    ensures MethodBinsAligned(Allocate(st, r, span), n)
  {
    if OfMethods(r.bin) {
      AddMultiple(st.Size(r), span, n);
    }
    var t := Allocate(st, r, span);
    forall i | 0 <= i < |t.allocs| && OfMethods(t.allocs[i].region.bin) ensures t.allocs[i].offset % n == 0 {
      assert i < |st.allocs| ==> t.allocs[i] == st.allocs[i];
    }
  }

  lemma {:induction false} NativeMethods(st: Layout, r: Region, a: NativeArray, k: nat, n: nat)
    requires n > 0 && MethodBinsAligned(st, n) && (OfMethods(r.bin) ==> a.header % n == 0 && a.element % n == 0)
    ensures MethodBinsAligned(NativeAllocated(st, r, a, k), n)
  {
    if k == 0 {
      AllocateMethods(st, r, a.header, n);
    } else {
      NativeMethods(st, r, a, k - 1, n);
      AllocateMethods(NativeAllocated(st, r, a, k - 1), r, a.element, n);
    }
  }

  lemma CalculatedMethods(heap: Heap, st: Layout, o: ObjId, n: nat)
    requires n > 0 && MethodBinsAligned(st, n) && o in heap && Interned(heap, st) && st.slots.Keys == st.words.Keys
    ensures MethodBinsAligned(Calculated(heap, st, o), n)
  {
    AllocateMethods(st, RegionFor(heap[o]), Span(heap[o]), n);
    if heap[o].kind.StringObject? {
      var c := InternedAs(heap, st, o);
      AllocateMethods(st, RegionFor(heap[c]), Span(heap[c]), n);
    }
  }

  lemma {:induction false} ReplayMethods(heap: Heap, steps: seq<Step>, n: nat)
    requires n > 0 && MethodsFit(heap, n)
    ensures MethodBinsAligned(Replay(heap, steps), n)
  {
    if steps != [] {
      var st, step := Replay(heap, steps[..|steps| - 1]), steps[|steps| - 1];
      ReplayMethods(heap, steps[..|steps| - 1], n);
      if Enabled(heap, st, step) {
        match step
        case Place(o) => CalculatedMethods(heap, st, o, n);
        case Forward(id) =>
          var a := heap[id.owner].natives[id.index];
          NativeMethods(st, Region(heap[id.owner].image, a.bin), a, a.count, n);
      }
    }
  }

  /** Methods are aligned in the image. */
  lemma MethodAligned(target: Target, st: Layout, a: Alloc)
    requires target.Valid() && OfMethods(a.region.bin) && a.offset % target.methodAlignment == 0
    ensures Offset(target, st, a) % target.methodAlignment == 0
  {
    var n := a.region.bin.Number();
    BinStartAfter(target, st, a.region.image, n);
    AddMultiple(BinStart(target, st, a.region.image, n), a.offset, target.methodAlignment);
  }
}
