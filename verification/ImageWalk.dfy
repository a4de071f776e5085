/**
 * The first pass over the heap as the image writer runs it (compiler/image_writer.cc): depth first
 * from every object, with the bin slots kept in the lock words of the objects themselves.
 */
module ImageWalk {
  import opened Align
  import opened OatTypes
  import opened BinSlot
  import opened ImageBins
  import opened ImageOffsets
  import opened ImageDemand

  class ImageWriter {
    const heap: Heap
    var allocs: seq<Alloc>
    var binSlotSizes: map<Region, nat>
    var imageEnds: map<nat, nat>
    ghost var slots: map<ObjId, nat>
    var lockWords: map<ObjId, nat>
    var internTable: map<nat, ObjId>
    var arrays: map<ArrayId, nat>
    ghost var steps: seq<Step>

    ghost function State(): Layout
      reads this
    {
      Layout(allocs, binSlotSizes, imageEnds, slots, lockWords, internTable, arrays)
    }

    ghost predicate Valid()
      reads this
    {
      WellFormed(heap) && State() == Replay(heap, steps) && forall id :: id in arrays ==> id.owner in lockWords
    }

    constructor (heap: Heap)
      requires WellFormed(heap)
      ensures Valid() && this.heap == heap && steps == []
    {
      this.heap := heap;
      allocs, binSlotSizes, imageEnds, arrays := [], map[], map[], map[];
      slots, lockWords, internTable, steps := map[], map[], map[], [];
    }

    /** Takes the next part of a bin, and of the image if the bin is one of mirror objects. */
    method Take(r: Region, span: nat) returns (offset: nat)
      modifies `allocs, `binSlotSizes, `imageEnds
      ensures State() == Allocate(old(State()), r, span) && offset == old(State()).Size(r)
    {
      offset := if r in binSlotSizes then binSlotSizes[r] else 0;
      allocs := allocs + [Alloc(r, offset, span)];
      binSlotSizes := binSlotSizes[r := offset + span];
      if r.bin.Mirror() {
        var end := if r.image in imageEnds then imageEnds[r.image] else 0;
        imageEnds := imageEnds[r.image := end + span];
      }
    }

    method AssignImageBinSlot(o: ObjId)
      requires o in heap
      modifies this
      ensures State() == Assigned(heap, old(State()), o) && steps == old(steps)
    {
      ghost var st := State();
      var r := RegionFor(heap[o]);
      var offset := Take(r, Span(heap[o]));
      lockWords := lockWords[o := Packed(r.bin.Number(), offset % WORD)];
      slots := slots[o := |st.allocs|];
    }

    method CalculateObjectBinSlots(o: ObjId)
      requires o in heap && Interned(heap, State()) && slots.Keys == lockWords.Keys
      modifies this
      ensures State() == Calculated(heap, old(State()), o) && steps == old(steps)
    {
      if heap[o].kind.StringObject? {
        var value := heap[o].kind.value;
        var interned := if value in internTable then internTable[value] else o;
        internTable := internTable[value := interned];
        if o != interned {
          if interned !in lockWords {
            AssignImageBinSlot(interned);
          }
          slots := slots[o := slots[interned]];
          lockWords := lockWords[o := lockWords[interned]];
          return;
        }
      }
      AssignImageBinSlot(o);
    }

    /** Forwards a native array: its header, then its elements one by one. */
    method AssignNativeArray(id: ArrayId)
      requires id.owner in heap && id.index < |heap[id.owner].natives|
      modifies this
      ensures State() == NativeAdded(heap, old(State()), id) && steps == old(steps)
    {
      var a := heap[id.owner].natives[id.index];
      var r := Region(heap[id.owner].image, a.bin);
      ghost var st := State();
      var h, i := |allocs|, 0;
      var offset := Take(r, a.header);
      while i < a.count
        invariant 0 <= i <= a.count && State() == NativeAllocated(st, r, a, i) && steps == old(steps)
      {
        offset := Take(r, a.element);
        i := i + 1;
      }
      NativeKeepsArrays(st, r, a, a.count);
      arrays := arrays[id := h];
    }

    /** Gives an object its slot, and if it is a string the interned version one, too. */
    method VisitObject(o: ObjId)
      requires Valid() && o in heap && o !in lockWords && !heap[o].inBootImage
      modifies this
      ensures Valid() && Extends(old(State()), State()) && o in lockWords && old(lockWords).Keys <= lockWords.Keys
      ensures arrays == old(arrays)
      ensures forall p :: p in lockWords && p !in old(lockWords) && p != o ==>
                            Forwarded(heap, arrays, p) && heap[p].kind.StringObject?
      ensures !heap[o].kind.StringObject? ==> o in slots && slots[o] == |old(allocs)|
    {
      ReplayInv(heap, steps);
      ApplyInv(heap, State(), Place(o));
      ReplayOn(heap, steps, Place(o));
      CalculatedWords(heap, State(), o);
      CalculateObjectBinSlots(o);
      steps := steps + [Place(o)];
    }

    /** An array is forwarded once. */
    method ForwardArray(id: ArrayId)
      requires Valid() && id.owner in heap && id.index < |heap[id.owner].natives|
      requires id !in arrays && id.owner in lockWords
      modifies this
      ensures Valid() && Extends(old(State()), State()) && lockWords == old(lockWords)
      ensures arrays == old(arrays)[id := |old(allocs)|]
    {
      ForwardStep(heap, steps, id);
      AssignNativeArray(id);
      steps := steps + [Forward(id)];
    }

    /** The native arrays of an object that has a slot. */
    method ForwardArrays(o: ObjId)
      requires Valid() && o in lockWords && o in heap && forall i :: ArrayId(o, i) !in arrays
      modifies this
      ensures Valid() && Extends(old(State()), State()) && lockWords == old(lockWords)
      ensures old(arrays).Keys <= arrays.Keys && Forwarded(heap, arrays, o)
      ensures forall id :: id in arrays && id !in old(arrays) ==> id.owner == o
    {
      ghost var st := State();
      var i := 0;
      while i < |heap[o].natives|
        invariant 0 <= i <= |heap[o].natives| && Valid() && Extends(st, State()) && lockWords == old(lockWords)
        invariant old(arrays).Keys <= arrays.Keys
        invariant forall k :: 0 <= k < i ==> ArrayId(o, k) in arrays
        invariant forall id :: id in arrays && id !in old(arrays) ==> id.owner == o && id.index < i
      {
        ghost var before := State();
        ForwardArray(ArrayId(o, i));
        ExtendsOn(st, before, State());
        i := i + 1;
      }
    }

    /** Everything an object with a slot refers to. */
    method WalkReferences(o: ObjId)
      requires Valid() && o in heap && o in lockWords
      modifies this
      ensures Valid() && Grown(heap, old(State()), State()) && RefsWalked(heap, lockWords, o)
      decreases heap.Keys - lockWords.Keys, 1
    {
      ghost var st := State();
      var i := 0;
      while i < |heap[o].refs|
        invariant 0 <= i <= |heap[o].refs| && Valid() && Grown(heap, st, State())
        invariant forall k :: 0 <= k < i ==> RefWalked(heap, lockWords, heap[o].refs[k])
      {
        if heap[o].refs[i].Some? {
          ghost var before := State();
          WalkFieldsInOrder(heap[o].refs[i].value);
          GrownOn(heap, st, before, State());
          WalkedOn(heap, before.words, lockWords);
        }
        i := i + 1;
      }
    }

    /**
     * For an unvisited object: the object itself, what it refers to, then its native arrays. Every
     * object that gets a slot on the way has its native arrays forwarded, too, and but for interned
     * strings everything it refers to has a slot.
     */
    method WalkFieldsInOrder(o: ObjId)
      requires Valid() && o in heap
      modifies this
      ensures Valid() && Grown(heap, old(State()), State())
      ensures heap[o].inBootImage || o in lockWords
      ensures o in lockWords && o !in old(lockWords) ==> RefsWalked(heap, lockWords, o)
      ensures o in lockWords && o !in old(lockWords) && !heap[o].kind.StringObject? ==>
                o in slots && slots[o] == |old(allocs)|
      decreases heap.Keys - lockWords.Keys, 0
    {
      if heap[o].inBootImage || o in lockWords {
        return;
      }
      ghost var before := State();
      VisitObject(o);
      ghost var visited := State();
      WalkReferences(o);
      ghost var walked := State();
      ForwardArrays(o);
      WalkDone(heap, before, visited, walked, State(), o);
    }

    /** heap->VisitObjects(WalkFieldsCallback): every object of the heap, in any order. */
    method WalkHeap(order: seq<ObjId>)
      requires Valid() && (forall o :: o in order <==> o in heap) && lockWords == map[]
      modifies this
      ensures Valid() && forall o :: o in Written(heap) ==> o in lockWords && Forwarded(heap, arrays, o)
    {
      ghost var st := State();
      var i := 0;
      while i < |order|
        invariant 0 <= i <= |order| && Valid() && Grown(heap, st, State())
        invariant forall j :: 0 <= j < i ==> heap[order[j]].inBootImage || order[j] in lockWords
      {
        ghost var before := State();
        WalkFieldsInOrder(order[i]);
        GrownOn(heap, st, before, State());
        i := i + 1;
      }
    }

    method CalculateAllBinOffsets(target: Target, images: nat) returns (binOffsets: seq<seq<nat>>)
      requires target.Valid()
      ensures |binOffsets| == images
      ensures forall k :: 0 <= k < images ==> StartsOf(target, State(), k, binOffsets[k])
      ensures forall k :: 0 <= k < images ==> BinsInARow(target, State(), k, binOffsets[k])
    {
      binOffsets := [];
      var i := 0;
      while i < images
        invariant 0 <= i == |binOffsets| <= images
        invariant forall k :: 0 <= k < i ==> StartsOf(target, State(), k, binOffsets[k])
        invariant forall k :: 0 <= k < i ==> BinsInARow(target, State(), k, binOffsets[k])
      {
        var offsets := CalculateBinOffsets(target, binSlotSizes, i, State());
        binOffsets := binOffsets + [offsets];
        i := i + 1;
      }
    }

    /** UnbinObjectsIntoOffset: from the lock word of an object to its offset. */
    method UnbinObject(target: Target, binOffsets: seq<seq<nat>>, o: ObjId) returns (offset: nat)
      requires Valid() && target.Valid() && o in heap && o in lockWords && heap[o].image < |binOffsets|
      requires StartsOf(target, State(), heap[o].image, binOffsets[heap[o].image])
      ensures UnbinnedTo(target, State(), o, offset)
    {
      ReplayInv(heap, steps);
      var word := lockWords[o];
      SlotUnbinned(heap, target, State(), o);
      offset := binOffsets[heap[o].image][GetBin(word)] + GetIndex(word);
    }

    /** heap->VisitObjects(UnbinObjectsIntoOffsetCallback). */
    method UnbinObjects(target: Target, binOffsets: seq<seq<nat>>, order: seq<ObjId>)
      returns (offsets: map<ObjId, nat>)
      requires Valid() && target.Valid()
      requires forall o :: o in order ==> o in heap && heap[o].image < |binOffsets|
      requires forall o :: o in order && !heap[o].inBootImage ==> o in lockWords
      requires forall k :: 0 <= k < |binOffsets| ==> StartsOf(target, State(), k, binOffsets[k])
      ensures forall o :: o in order && !heap[o].inBootImage ==> o in offsets
      ensures forall o :: o in offsets ==> UnbinnedTo(target, State(), o, offsets[o])
    {
      offsets := map[];
      var i := 0;
      while i < |order|
        invariant 0 <= i <= |order|
        invariant forall j :: 0 <= j < i && !heap[order[j]].inBootImage ==> order[j] in offsets
        invariant forall o :: o in offsets ==> UnbinnedTo(target, State(), o, offsets[o])
      {
        var o := order[i];
        if !heap[o].inBootImage {
          var offset := UnbinObject(target, binOffsets, o);
          offsets := offsets[o := offset];
        }
        i := i + 1;
      }
    }

    /** The native relocations: the start of its bin is added to the offset of every native allocation. */
    method UpdateNativeRelocations(target: Target, binOffsets: seq<seq<nat>>) returns (natives: map<nat, nat>)
      requires Valid() && target.Valid()
      requires forall i :: 0 <= i < |allocs| ==> allocs[i].region.image < |binOffsets|
      requires forall k :: 0 <= k < |binOffsets| ==> StartsOf(target, State(), k, binOffsets[k])
      ensures RelocatedUpTo(target, State(), natives, |allocs|)
    {
      natives := map[];
      var i := 0;
      while i < |allocs|
        invariant 0 <= i <= |allocs| && RelocatedUpTo(target, State(), natives, i)
      {
        var r := allocs[i].region;
        if !r.bin.Mirror() {
          natives := natives[i := binOffsets[r.image][r.bin.Number()] + allocs[i].offset];
        }
        i := i + 1;
      }
    }

    /**
     * The whole layout. The bins of objects get the sizes that the heap demands. Every object of the
     * heap gets an offset, which is that of its slot exactly if the slot can be read back: all can
     * if the heap fits, and then the objects are aligned, between the header and the end of the
     * objects, and apart from each other except for equal strings. All native arrays are placed
     * behind the objects, their elements in a row, and nothing native overlaps. The bins follow each
     * other, aligned as their contents need it, so that methods are aligned.
     */
    method CalculateNewObjectOffsets(target: Target, images: nat, order: seq<ObjId>)
      returns (offsets: map<ObjId, nat>, natives: map<nat, nat>, binOffsets: seq<seq<nat>>)
      requires Valid() && lockWords == map[] && target.Valid() && forall o :: o in order <==> o in heap
      requires forall o :: o in heap ==> heap[o].image < images
      modifies this
      ensures Valid() && forall o :: o in Written(heap) ==> o in offsets
      ensures forall r: Region :: r.bin.Mirror() ==> State().Size(r) == BinDemand(heap, r)
      ensures forall o :: o in offsets ==> UnbinnedTo(target, State(), o, offsets[o])
      ensures HeapFits(heap) ==> WellPlaced(heap, target, State(), offsets)
      ensures forall r, largest :: Overfull(heap, r, largest) ==>
                                     exists o :: Misplaced(heap, target, State(), offsets, o)
      ensures forall o, i :: o in Written(heap) && 0 <= i < |heap[o].natives| ==>
                               ArrayRelocated(heap, target, State(), natives, ArrayId(o, i))
      ensures forall x, y :: x in natives && y in natives && x < y ==> NativesApart(State(), natives, x, y)
      ensures |binOffsets| == images && forall k :: 0 <= k < images ==> BinsInARow(target, State(), k, binOffsets[k])
      ensures RelocatedFrom(State(), binOffsets, natives)
      ensures MethodsFit(heap, target.methodAlignment) ==> AllMethodsAligned(target, State(), natives)
    {
      WalkHeap(order);
      ReplayInv(heap, steps);
      ReplayInImages(heap, steps, images);
      binOffsets := CalculateAllBinOffsets(target, images);
      offsets := UnbinObjects(target, binOffsets, order);
      natives := UpdateNativeRelocations(target, binOffsets);
      ObjectsUnbinned(heap, target, steps, offsets);
      AllRelocated(heap, target, State(), natives);
      FromBins(target, State(), binOffsets, natives);
      if MethodsFit(heap, target.methodAlignment) {
        ReplayMethods(heap, steps, target.methodAlignment);
        MethodsRelocated(target, State(), natives);
      }
    }
  }

  /** The offset from the lock word is that of the slot exactly if the slot can be read back. */
  ghost predicate UnbinnedTo(target: Target, st: Layout, o: ObjId, offset: nat)
    requires target.Valid()
  {
    o in st.slots && st.slots[o] < |st.allocs| && (offset == ObjectOffset(target, st, o) <==> SlotReadable(st, o))
  }

  ghost predicate Misplaced(heap: Heap, target: Target, st: Layout, offsets: map<ObjId, nat>, o: ObjId)
    requires target.Valid()
  {
    o in Written(heap) && o in offsets && !OffsetOf(target, st, o, offsets[o])
  }

  ghost predicate WellPlaced(heap: Heap, target: Target, st: Layout, offsets: map<ObjId, nat>)
    requires target.Valid()
  {
    && (forall o :: o in offsets ==> OffsetOf(target, st, o, offsets[o]) && InImage(heap, target, st, o, offsets[o]))
    && (forall o, p :: o in offsets && p in offsets && o != p ==> Apart(heap, o, p, offsets[o], offsets[p]))
  }

  /** The native ones among the first n allocations have their offsets. */
  ghost predicate RelocatedUpTo(target: Target, st: Layout, natives: map<nat, nat>, n: nat)
    requires target.Valid() && n <= |st.allocs|
  {
    && (forall i :: i in natives <==> 0 <= i < n && !st.allocs[i].region.bin.Mirror())
    && (forall i :: i in natives ==> natives[i] == Offset(target, st, st.allocs[i]))
  }

  /** An object that the walk is done with. */
  ghost predicate DoneAt(heap: Heap, st: Layout, p: ObjId) {
    Forwarded(heap, st.arrays, p) && (heap[p].kind.StringObject? || RefsWalked(heap, st.words, p))
  }

  /** The walk goes on from a to b: everything is kept, and it is done with every object it has added. */
  ghost predicate Grown(heap: Heap, a: Layout, b: Layout) {
    && Extends(a, b) && a.words.Keys <= b.words.Keys && a.arrays.Keys <= b.arrays.Keys
    && (forall p :: p in b.words && p !in a.words ==> DoneAt(heap, b, p))
    && (forall id :: id in b.arrays && id !in a.arrays ==> id.owner !in a.words)
  }

  lemma DoneOn(heap: Heap, a: Layout, b: Layout, p: ObjId)
    requires a.words.Keys <= b.words.Keys && a.arrays.Keys <= b.arrays.Keys && DoneAt(heap, a, p)
    ensures DoneAt(heap, b, p)
  {
    WalkedOn(heap, a.words, b.words);
  }

  lemma GrownOn(heap: Heap, a: Layout, b: Layout, c: Layout)
    requires Grown(heap, a, b) && Grown(heap, b, c)
    ensures Grown(heap, a, c)
  {
    ExtendsOn(a, b, c);
    forall p | p in c.words && p !in a.words ensures DoneAt(heap, c, p) {
      if p in b.words {
        DoneOn(heap, b, c, p);
      }
    }
  }

  /** A visited object, what it refers to and its native arrays together. */
  lemma WalkDone(heap: Heap, before: Layout, visited: Layout, walked: Layout, after: Layout, o: ObjId)
    requires o !in before.words && o in visited.words && Extends(before, visited) && before.arrays == visited.arrays
    requires before.words.Keys <= visited.words.Keys
    requires forall p :: p in visited.words && p !in before.words && p != o ==>
                           Forwarded(heap, visited.arrays, p) && heap[p].kind.StringObject?
    requires Grown(heap, visited, walked) && RefsWalked(heap, walked.words, o)
    requires Extends(walked, after) && after.words == walked.words && walked.arrays.Keys <= after.arrays.Keys
    requires Forwarded(heap, after.arrays, o)
    requires forall id :: id in after.arrays && id !in walked.arrays ==> id.owner == o
    ensures Grown(heap, before, after)
  {
    ExtendsOn(before, visited, walked);
    ExtendsOn(before, walked, after);
    forall p | p in after.words && p !in before.words ensures DoneAt(heap, after, p) {
      if p != o {
        if p in visited.words {
          DoneOn(heap, visited, after, p);
        } else {
          DoneOn(heap, walked, after, p);
        }
      }
    }
  }

  predicate RefWalked(heap: Heap, words: map<ObjId, nat>, r: Option<ObjId>) {
    r.Some? ==> r.value in heap && (heap[r.value].inBootImage || r.value in words)
  }

  /** Everything an object refers to has a slot or is in the boot image. */
  predicate RefsWalked(heap: Heap, words: map<ObjId, nat>, o: ObjId) {
    o in heap && forall k :: 0 <= k < |heap[o].refs| ==> RefWalked(heap, words, heap[o].refs[k])
  }

  lemma WalkedOn(heap: Heap, before: map<ObjId, nat>, after: map<ObjId, nat>)
    requires before.Keys <= after.Keys
    ensures forall o :: RefsWalked(heap, before, o) ==> RefsWalked(heap, after, o)
    ensures forall r :: RefWalked(heap, before, r) ==> RefWalked(heap, after, r)
  {
  }

  /** All native arrays of an object are forwarded. */
  ghost predicate Forwarded(heap: Heap, arrays: map<ArrayId, nat>, o: ObjId) {
    o in heap && forall i :: 0 <= i < |heap[o].natives| ==> ArrayId(o, i) in arrays
  }

  ghost predicate OffsetOf(target: Target, st: Layout, o: ObjId, offset: nat)
    requires target.Valid()
  {
    o in st.slots && st.slots[o] < |st.allocs| && offset == ObjectOffset(target, st, o)
  }

  predicate InImage(heap: Heap, target: Target, st: Layout, o: ObjId, offset: nat) {
    && o in heap && offset % OBJECT_ALIGNMENT == 0
    && target.begin <= offset && offset + heap[o].size <= target.begin + st.End(heap[o].image)
  }

  ghost predicate Apart(heap: Heap, o: ObjId, p: ObjId, x: nat, y: nat) {
    && o in heap && p in heap
    && if SameString(heap, o, p) then x == y
       else heap[o].image == heap[p].image ==> Disjoint(x, Span(heap[o]), y, Span(heap[p]))
  }

  lemma AllPlaced(heap: Heap, target: Target, st: Layout, offsets: map<ObjId, nat>)
    requires target.Valid() && Inv(heap, st)
    requires forall o :: o in offsets ==> OffsetOf(target, st, o, offsets[o])
    ensures WellPlaced(heap, target, st, offsets)
  {
    forall o | o in offsets ensures InImage(heap, target, st, o, offsets[o]) {
      assert OffsetOf(target, st, o, offsets[o]);
      ObjectPlaced(heap, target, st, o);
    }
    forall o, p | o in offsets && p in offsets && o != p ensures Apart(heap, o, p, offsets[o], offsets[p]) {
      assert OffsetOf(target, st, o, offsets[o]) && OffsetOf(target, st, p, offsets[p]);
      ObjectsApart(heap, target, st, o, p);
    }
  }

  ghost predicate StartsOf(target: Target, st: Layout, image: nat, offsets: seq<nat>)
    requires target.Valid()
  {
    |offsets| == BIN_COUNT && forall n :: 0 <= n < BIN_COUNT ==> offsets[n] == BinStart(target, st, image, n)
  }

  /** What unbinning makes of the lock word. */
  lemma SlotUnbinned(heap: Heap, target: Target, st: Layout, o: ObjId)
    requires WellFormed(heap) && target.Valid() && Bumped(st) && Words(heap, st) && o in st.words
    ensures o in st.slots && SlotFor(heap, st, o) && 0 <= GetBin(st.words[o]) < BIN_COUNT && 0 <= GetIndex(st.words[o])
    ensures UnbinnedTo(target, st, o, BinStart(target, st, heap[o].image, GetBin(st.words[o])) + GetIndex(st.words[o]))
  {
    assert WordFor(heap, st, o);
    var a := st.allocs[st.slots[o]];
    assert Inside(st, a) && a.span > 0;
    WordUnbinned(target, st, a);
  }

  /** The place that a packed slot leads to is that of the allocation exactly if the offset is readable. */
  lemma WordUnbinned(target: Target, st: Layout, a: Alloc)
    requires target.Valid() && Inside(st, a) && a.span > 0 && a.region.bin.Mirror()
    ensures var word := Packed(a.region.bin.Number(), a.offset % WORD);
            && 0 <= GetBin(word) < BIN_COUNT && 0 <= GetIndex(word)
            && (BinStart(target, st, a.region.image, GetBin(word)) + GetIndex(word) == Offset(target, st, a) <==>
                Readable(a.offset))
  {
    var bin := a.region.bin.Number();
    var word := Packed(bin, a.offset % WORD);
    ReadBack(bin, a.offset);
    if bin < GetBin(word) {
      assert BinAt(bin) == a.region.bin;
      BinsAscend(target, st, a.region.image, bin, GetBin(word));
    }
  }

  lemma {:induction false} NativeKeepsArrays(st: Layout, r: Region, a: NativeArray, k: nat)
    ensures var t := NativeAllocated(st, r, a, k);
            t.slots == st.slots && t.words == st.words && t.interned == st.interned && t.arrays == st.arrays
  {
    if k > 0 {
      NativeKeepsArrays(st, r, a, k - 1);
    }
  }

  lemma NativeAddedWords(heap: Heap, st: Layout, id: ArrayId)
    requires id.owner in heap && id.index < |heap[id.owner].natives|
    ensures NativeAdded(heap, st, id).words == st.words
    ensures NativeAdded(heap, st, id).arrays == st.arrays[id := |st.allocs|]
  {
    var a := heap[id.owner].natives[id.index];
    NativeKeepsArrays(st, Region(heap[id.owner].image, a.bin), a, a.count);
  }

  lemma ForwardStep(heap: Heap, steps: seq<Step>, id: ArrayId)
    requires WellFormed(heap) && id.owner in heap && id.index < |heap[id.owner].natives|
    requires id !in Replay(heap, steps).arrays
    ensures var st, t := Replay(heap, steps), Replay(heap, steps + [Forward(id)]);
            && t == NativeAdded(heap, st, id) && Extends(st, t)
            && t.words == st.words && t.arrays == st.arrays[id := |st.allocs|]
  {
    ReplayInv(heap, steps);
    ApplyInv(heap, Replay(heap, steps), Forward(id));
    ReplayOn(heap, steps, Forward(id));
    NativeAddedWords(heap, Replay(heap, steps), id);
  }

  lemma CalculatedWords(heap: Heap, st: Layout, o: ObjId)
    requires o in heap && Interned(heap, st) && st.slots.Keys == st.words.Keys
    ensures o in Calculated(heap, st, o).words && st.words.Keys <= Calculated(heap, st, o).words.Keys
    ensures forall p :: p in Calculated(heap, st, o).words && p !in st.words && p != o ==>
                          p in heap && heap[p].kind.StringObject?
    ensures Calculated(heap, st, o).arrays == st.arrays
  {
    var t := Calculated(heap, st, o);
    if !heap[o].kind.StringObject? || InternedAs(heap, st, o) == o {
      assert t.words.Keys == st.words.Keys + {o};
    } else {
      var c := InternedAs(heap, st, o);
      assert heap[c].kind.StringObject?;
      assert t.words.Keys == st.words.Keys + {o, c};
    }
  }

  /** The final offset of native data is that of its bin plus its offset in the bin. */
  predicate RelocatedFrom(st: Layout, binOffsets: seq<seq<nat>>, natives: map<nat, nat>) {
    forall i :: i in natives ==>
      && i < |st.allocs| && st.allocs[i].region.image < |binOffsets|
      && st.allocs[i].region.bin.Number() < |binOffsets[st.allocs[i].region.image]|
      && natives[i] == binOffsets[st.allocs[i].region.image][st.allocs[i].region.bin.Number()] + st.allocs[i].offset
  }

  lemma FromBins(target: Target, st: Layout, binOffsets: seq<seq<nat>>, natives: map<nat, nat>)
    requires target.Valid() && RelocatedUpTo(target, st, natives, |st.allocs|) && InImages(st, |binOffsets|)
    requires forall k :: 0 <= k < |binOffsets| ==> StartsOf(target, st, k, binOffsets[k])
    ensures RelocatedFrom(st, binOffsets, natives)
  {
  }

  predicate AllMethodsAligned(target: Target, st: Layout, natives: map<nat, nat>)
    requires target.Valid()
  {
    forall i :: i in natives && i < |st.allocs| && OfMethods(st.allocs[i].region.bin) ==>
      natives[i] % target.methodAlignment == 0
  }

  lemma MethodsRelocated(target: Target, st: Layout, natives: map<nat, nat>)
    requires target.Valid() && RelocatedUpTo(target, st, natives, |st.allocs|)
    requires MethodBinsAligned(st, target.methodAlignment)
    ensures AllMethodsAligned(target, st, natives)
  {
    forall i | i in natives && i < |st.allocs| && OfMethods(st.allocs[i].region.bin)
      ensures natives[i] % target.methodAlignment == 0
    {
      MethodAligned(target, st, st.allocs[i]);
    }
  }

  /** What the offsets are worth once all objects have slots. */
  lemma ObjectsUnbinned(heap: Heap, target: Target, steps: seq<Step>, offsets: map<ObjId, nat>)
    requires WellFormed(heap) && target.Valid() && Written(heap) <= Replay(heap, steps).slots.Keys
    requires forall o :: o in offsets ==> UnbinnedTo(target, Replay(heap, steps), o, offsets[o])
    requires forall o :: o in Written(heap) ==> o in offsets
    ensures forall r: Region :: r.bin.Mirror() ==> Replay(heap, steps).Size(r) == BinDemand(heap, r)
    ensures HeapFits(heap) ==> WellPlaced(heap, target, Replay(heap, steps), offsets)
    ensures forall r, largest :: Overfull(heap, r, largest) ==>
                                   exists o :: Misplaced(heap, target, Replay(heap, steps), offsets, o)
  {
    var st := Replay(heap, steps);
    forall r: Region | r.bin.Mirror() ensures st.Size(r) == BinDemand(heap, r) {
      SizesOfHeap(heap, steps, r);
    }
    if HeapFits(heap) {
      forall o | o in offsets ensures OffsetOf(target, st, o, offsets[o]) {
        assert UnbinnedTo(target, st, o, offsets[o]);
        AllReadable(heap, steps, o);
      }
      ReplayInv(heap, steps);
      AllPlaced(heap, target, st, offsets);
    }
    forall r, largest | Overfull(heap, r, largest) ensures exists o :: Misplaced(heap, target, st, offsets, o) {
      var o := SomeUnreadable(heap, steps, r, largest);
      assert UnbinnedTo(target, st, o, offsets[o]);
      assert Misplaced(heap, target, st, offsets, o);
    }
  }

  /** A native array: the header behind all objects of its image, and the elements in a row behind it. */
  ghost predicate ArrayRelocated(heap: Heap, target: Target, st: Layout, natives: map<nat, nat>, id: ArrayId) {
    && id in st.arrays && id.owner in heap && id.index < |heap[id.owner].natives|
    && var a, h := heap[id.owner].natives[id.index], st.arrays[id];
       && h in natives && target.begin + st.End(heap[id.owner].image) <= natives[h]
       && forall i :: 0 <= i < a.count ==> ElementRelocated(natives, h, a, i)
  }

  predicate ElementRelocated(natives: map<nat, nat>, h: nat, a: NativeArray, i: nat) {
    h in natives && h + 1 + i in natives && natives[h + 1 + i] == natives[h] + a.header + i * a.element
  }

  predicate NativesApart(st: Layout, natives: map<nat, nat>, x: nat, y: nat) {
    && x in natives && y in natives && x < |st.allocs| && y < |st.allocs|
    && (st.allocs[x].region.image == st.allocs[y].region.image ==>
          Disjoint(natives[x], st.allocs[x].span, natives[y], st.allocs[y].span))
  }

  lemma AllRelocated(heap: Heap, target: Target, st: Layout, natives: map<nat, nat>)
    requires WellFormed(heap) && target.Valid() && Inv(heap, st) && RelocatedUpTo(target, st, natives, |st.allocs|)
    ensures forall o, i :: Forwarded(heap, st.arrays, o) && 0 <= i < |heap[o].natives| ==>
                             ArrayRelocated(heap, target, st, natives, ArrayId(o, i))
    ensures forall x, y :: x in natives && y in natives && x < y ==> NativesApart(st, natives, x, y)
  {
    forall o, i | Forwarded(heap, st.arrays, o) && 0 <= i < |heap[o].natives|
      ensures ArrayRelocated(heap, target, st, natives, ArrayId(o, i))
    {
      HeaderRelocated(heap, target, st, natives, ArrayId(o, i));
    }
    forall x, y | x in natives && y in natives && x < y ensures NativesApart(st, natives, x, y) {
      if st.allocs[x].region.image == st.allocs[y].region.image {
        AllocationsDisjoint(target, st, x, y);
      }
    }
  }

  lemma HeaderRelocated(heap: Heap, target: Target, st: Layout, natives: map<nat, nat>, id: ArrayId)
    requires WellFormed(heap) && target.Valid() && Inv(heap, st) && RelocatedUpTo(target, st, natives, |st.allocs|)
    requires id in st.arrays
    ensures ArrayRelocated(heap, target, st, natives, id)
  {
    assert ArrayPlaced(heap, st, id);
    var a, h := heap[id.owner].natives[id.index], st.arrays[id];
    assert Inside(st, st.allocs[h]);
    InItsPart(target, st, st.allocs[h]);
    forall i | 0 <= i < a.count ensures ElementRelocated(natives, h, a, i) {
      NativeElement(heap, target, st, id, i);
      assert st.allocs[h + 1 + i].region == Region(heap[id.owner].image, a.bin);
    }
  }
}
