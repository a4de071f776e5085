/**
 * The bins of the image writer (compiler/image_writer.cc, compiler/image_writer.h): a first pass
 * gives every object a place in a bin, and the bins are laid out one after the other at the end.
 */
module ImageBins {
  import opened Align
  import opened OatTypes
  import opened BinSlot

  /** Mirror objects first, from dirtiest to cleanest, then the native data. */
  datatype Bin =
    | MiscDirty | ClassVerified | Regular | ClassInitialized | ClassInitializedFinalStatics | StringBin
    | ArtField | ArtMethodClean | ArtMethodDirty | ImtConflictTable | RuntimeMethod | DexCacheArray
  {
    function Number(): nat {
      match this
      case MiscDirty => 0
      case ClassVerified => 1
      case Regular => 2
      case ClassInitialized => 3
      case ClassInitializedFinalStatics => 4
      case StringBin => 5
      case ArtField => 6
      case ArtMethodClean => 7
      case ArtMethodDirty => 8
      case ImtConflictTable => 9
      case RuntimeMethod => 10
      case DexCacheArray => 11
    }

    predicate Mirror() {
      Number() < MIRROR_BINS
    }
  }

  const MIRROR_BINS: nat := 6
  const BIN_COUNT: nat := 12

  function BinAt(number: nat): (bin: Bin)
    requires number < BIN_COUNT
    ensures bin.Number() == number
  {
    [MiscDirty, ClassVerified, Regular, ClassInitialized, ClassInitializedFinalStatics, StringBin,
     ArtField, ArtMethodClean, ArtMethodDirty, ImtConflictTable, RuntimeMethod, Bin.DexCacheArray][number]
  }

  type ObjId = nat

  /** What decides the bin: `value` stands for the characters of a string. */
  datatype Kind =
    | ClassObject(initialized: bool, staticsFinal: seq<bool>)
    | StringObject(value: nat)
    | PlainObject
    | DexCacheObject
    | OtherObject

  /** A length prefixed array of fields or methods that belongs to a class. */
  datatype NativeArray = NativeArray(bin: Bin, header: nat, element: nat, count: nat)

  datatype Obj = Obj(size: nat, kind: Kind, image: nat, inBootImage: bool, refs: seq<Option<ObjId>>,
                     natives: seq<NativeArray>)

  type Heap = map<ObjId, Obj>

  ghost predicate SameString(heap: Heap, o: ObjId, p: ObjId)
    requires o in heap && p in heap
  {
    heap[o].kind.StringObject? && heap[o].kind == heap[p].kind
  }

  /** No dangling references; equal strings have the same size and go to the image of their class. */
  ghost predicate WellFormed(heap: Heap) {
    && (forall o, i :: o in heap && 0 <= i < |heap[o].refs| && heap[o].refs[i].Some? ==> heap[o].refs[i].value in heap)
    && (forall o, p :: o in heap && p in heap && SameString(heap, o, p) ==>
          heap[o].size == heap[p].size && heap[o].image == heap[p].image
          && heap[o].inBootImage == heap[p].inBootImage)
    && (forall o, i :: o in heap && 0 <= i < |heap[o].natives| ==> !heap[o].natives[i].bin.Mirror())
    && (forall o :: o in heap ==> heap[o].size > 0 && (heap[o].kind.StringObject? ==> heap[o].natives == []))
  }

  function BinFor(kind: Kind): (bin: Bin)
    ensures bin.Mirror()
  {
    match kind
    case ClassObject(initialized, staticsFinal) =>
      if !initialized then ClassVerified
      else if false in staticsFinal then ClassInitialized
      else ClassInitializedFinalStatics
    case StringObject(_) => StringBin
    case PlainObject => MiscDirty
    case DexCacheObject => MiscDirty
    case OtherObject => Regular
  }

  /** What each bin of mirror objects is for. */
  lemma BinByKind(kind: Kind)
    ensures BinFor(kind) == MiscDirty <==> kind.PlainObject? || kind.DexCacheObject?
    ensures BinFor(kind) == Regular <==> kind.OtherObject?
    ensures BinFor(kind) == StringBin <==> kind.StringObject?
    ensures BinFor(kind) == ClassVerified <==> kind.ClassObject? && !kind.initialized
    ensures BinFor(kind) == ClassInitializedFinalStatics <==>
            kind.ClassObject? && kind.initialized && forall i :: 0 <= i < |kind.staticsFinal| ==> kind.staticsFinal[i]
  {
    if kind.ClassObject? && kind.initialized && forall i :: 0 <= i < |kind.staticsFinal| ==> kind.staticsFinal[i] {
      assert false !in kind.staticsFinal;
    }
  }

  datatype Region = Region(image: nat, bin: Bin)

  /** The native array at a position in the list of a class. */
  datatype ArrayId = ArrayId(owner: ObjId, index: nat)

  datatype Alloc = Alloc(region: Region, offset: nat, span: nat)

  /**
   * The state of the first pass: what was allocated, how full each bin and each image is, which
   * allocation each object has, the lock words that say so, the intern table, and which allocation
   * is the header of a native array.
   */
  datatype Layout = Layout(allocs: seq<Alloc>, sizes: map<Region, nat>, ends: map<nat, nat>,
                           slots: map<ObjId, nat>, words: map<ObjId, nat>, interned: map<nat, ObjId>,
                           arrays: map<ArrayId, nat>)
  {
    function Size(r: Region): nat {
      if r in sizes then sizes[r] else 0
    }

    /** image_end_, without the header. */
    function End(image: nat): nat {
      if image in ends then ends[image] else 0
    }
  }

  function Allocate(st: Layout, r: Region, span: nat): Layout {
    st.(allocs := st.allocs + [Alloc(r, st.Size(r), span)],
        sizes := st.sizes[r := st.Size(r) + span],
        ends := if r.bin.Mirror() then st.ends[r.image := st.End(r.image) + span] else st.ends)
  }

  function Span(o: Obj): (span: nat)
    ensures span % 8 == 0 && o.size <= span < o.size + 8
  {
    RoundUp(o.size, OBJECT_ALIGNMENT)
  }

  function RegionFor(o: Obj): Region {
    Region(o.image, BinFor(o.kind))
  }

  /** AssignImageBinSlot. */
  function Assigned(heap: Heap, st: Layout, o: ObjId): Layout
    requires o in heap
  {
    var r := RegionFor(heap[o]);
    Allocate(st, r, Span(heap[o])).(slots := st.slots[o := |st.allocs|],
                                    words := st.words[o := Packed(r.bin.Number(), st.Size(r) % WORD)])
  }

  /** Points those looking for o to the interned version. */
  function Sharing(st: Layout, o: ObjId, c: ObjId): Layout
    requires c in st.slots && c in st.words
  {
    st.(slots := st.slots[o := st.slots[c]], words := st.words[o := st.words[c]])
  }

  /** The interned string equal to o, which is o itself if there was none. */
  function InternedAs(heap: Heap, st: Layout, o: ObjId): ObjId
    requires o in heap && heap[o].kind.StringObject?
  {
    if heap[o].kind.value in st.interned then st.interned[heap[o].kind.value] else o
  }

  function Interning(heap: Heap, st: Layout, o: ObjId): Layout
    requires o in heap && heap[o].kind.StringObject?
  {
    st.(interned := st.interned[heap[o].kind.value := InternedAs(heap, st, o)])
  }

  /** CalculateObjectBinSlots, for an object without a slot. */
  function Calculated(heap: Heap, st: Layout, o: ObjId): Layout
    requires o in heap && Interned(heap, st) && st.slots.Keys == st.words.Keys
  {
    if !heap[o].kind.StringObject? then Assigned(heap, st, o) else
    var c, s := InternedAs(heap, st, o), Interning(heap, st, o);
    if c == o then Assigned(heap, s, o) else
    var t := if c in s.slots then s else Assigned(heap, s, c);
    Sharing(t, o, c)
  }

  predicate Interned(heap: Heap, st: Layout) {
    forall v :: v in st.interned ==> st.interned[v] in heap && heap[st.interned[v]].kind == StringObject(v)
  }

  predicate Inside(st: Layout, a: Alloc) {
    a.offset + a.span <= st.Size(a.region)
  }

  predicate Before(a: Alloc, b: Alloc) {
    a.region == b.region ==> a.offset + a.span <= b.offset
  }

  /** Allocations stay inside their bins and never overlap. */
  ghost predicate Bumped(st: Layout) {
    && (forall i :: 0 <= i < |st.allocs| ==> Inside(st, st.allocs[i]))
    && (forall i, j :: 0 <= i < j < |st.allocs| ==> Before(st.allocs[i], st.allocs[j]))
  }

  /** In the bins of mirror objects everything is aligned. */
  ghost predicate ObjectAligned(st: Layout) {
    && (forall r :: r in st.sizes && r.bin.Mirror() ==> st.sizes[r] % OBJECT_ALIGNMENT == 0)
    && (forall i :: 0 <= i < |st.allocs| && st.allocs[i].region.bin.Mirror() ==>
          st.allocs[i].offset % OBJECT_ALIGNMENT == 0)
  }

  /** The size of the first n bins of an image. */
  function BinSizeSum(st: Layout, image: nat, n: nat): nat
    requires n <= BIN_COUNT
  {
    if n == 0 then 0 else BinSizeSum(st, image, n - 1) + st.Size(Region(image, BinAt(n - 1)))
  }

  ghost predicate EndsAddUp(st: Layout) {
    forall image :: st.End(image) == BinSizeSum(st, image, MIRROR_BINS)
  }

  /** The slot is one of the right bin and size. */
  predicate SlotFor(heap: Heap, st: Layout, o: ObjId)
    requires o in st.slots
  {
    && o in heap && !heap[o].inBootImage && st.slots[o] < |st.allocs|
    && st.allocs[st.slots[o]].region == RegionFor(heap[o]) && st.allocs[st.slots[o]].span == Span(heap[o])
  }

  /** Two objects share a slot exactly if they are equal strings. */
  ghost predicate Shared(heap: Heap, st: Layout, o: ObjId, p: ObjId)
    requires o in st.slots && p in st.slots && o in heap && p in heap
  {
    st.slots[o] == st.slots[p] <==> o == p || SameString(heap, o, p)
  }

  /** A string with a slot has that of its interned version. */
  ghost predicate WithInterned(heap: Heap, st: Layout, o: ObjId)
    requires o in st.slots
  {
    o in heap && heap[o].kind.StringObject? ==>
      var v := heap[o].kind.value;
      v in st.interned && st.interned[v] in st.slots && st.slots[st.interned[v]] == st.slots[o]
  }

  ghost predicate Slotted(heap: Heap, st: Layout) {
    && Interned(heap, st)
    && (forall o :: o in st.slots ==> SlotFor(heap, st, o) && WithInterned(heap, st, o))
    && (forall o, p :: o in st.slots && p in st.slots ==> Shared(heap, st, o, p))
  }

  lemma AllocateBumped(st: Layout, r: Region, span: nat)
    requires Bumped(st)
    ensures Bumped(Allocate(st, r, span))
  {
    var t := Allocate(st, r, span);
    forall i | 0 <= i < |t.allocs| ensures Inside(t, t.allocs[i]) {
      assert i < |st.allocs| ==> Inside(st, st.allocs[i]);
    }
    forall i, j | 0 <= i < j < |t.allocs| ensures Before(t.allocs[i], t.allocs[j]) {
      assert Inside(st, st.allocs[i]);
      assert j < |st.allocs| ==> Before(st.allocs[i], st.allocs[j]);
    }
  }

  lemma AllocateAligned(st: Layout, r: Region, span: nat)
    requires ObjectAligned(st) && (r.bin.Mirror() ==> span % OBJECT_ALIGNMENT == 0)
    ensures ObjectAligned(Allocate(st, r, span))
  {
    var t := Allocate(st, r, span);
    if r.bin.Mirror() {
      AddMultiple(st.Size(r), span, OBJECT_ALIGNMENT);
    }
    forall q | q in t.sizes && q.bin.Mirror() ensures t.sizes[q] % OBJECT_ALIGNMENT == 0 {
      assert q != r ==> q in st.sizes;
    }
    forall i | 0 <= i < |t.allocs| && t.allocs[i].region.bin.Mirror()
      ensures t.allocs[i].offset % OBJECT_ALIGNMENT == 0
    {
      assert i < |st.allocs| ==> t.allocs[i] == st.allocs[i];
    }
  }

  /** One bin grows, and every sum that includes it. */
  lemma {:induction false} AllocateSum(st: Layout, r: Region, span: nat, image: nat, n: nat)
    requires n <= BIN_COUNT
    ensures BinSizeSum(Allocate(st, r, span), image, n) ==
            BinSizeSum(st, image, n) + (if image == r.image && r.bin.Number() < n then span else 0)
  {
    if n > 0 {
      AllocateSum(st, r, span, image, n - 1);
      assert BinAt(n - 1) == r.bin <==> n - 1 == r.bin.Number();
    }
  }

  lemma AllocateAddsUp(st: Layout, r: Region, span: nat)
    requires EndsAddUp(st)
    ensures EndsAddUp(Allocate(st, r, span))
  {
    var t := Allocate(st, r, span);
    forall image ensures t.End(image) == BinSizeSum(t, image, MIRROR_BINS) {
      AllocateSum(st, r, span, image, MIRROR_BINS);
    }
  }

  /** Later states keep every slot and every allocation. */
  ghost predicate Extends(st: Layout, t: Layout) {
    && st.allocs <= t.allocs
    && (forall o :: o in st.slots ==> o in t.slots && t.slots[o] == st.slots[o])
  }

  lemma ExtendsOn(a: Layout, b: Layout, c: Layout)
    requires Extends(a, b) && Extends(b, c)
    ensures Extends(a, c)
  {
  }

  /** A string that gets its own slot is the interned one, so no equal string has a slot yet. */
  lemma NoEqualYet(heap: Heap, st: Layout, o: ObjId, p: ObjId)
    requires Slotted(heap, st) && o in heap && o !in st.slots && p in st.slots
    requires heap[o].kind.StringObject? ==> heap[o].kind.value in st.interned && st.interned[heap[o].kind.value] == o
    ensures p in heap && !SameString(heap, o, p)
  {
    assert SlotFor(heap, st, p) && WithInterned(heap, st, p);
  }

  lemma AssignedSlotted(heap: Heap, st: Layout, o: ObjId)
    requires Slotted(heap, st) && o in heap && o !in st.slots && !heap[o].inBootImage
    requires heap[o].kind.StringObject? ==> heap[o].kind.value in st.interned && st.interned[heap[o].kind.value] == o
    ensures Slotted(heap, Assigned(heap, st, o))
  {
    var t := Assigned(heap, st, o);
    forall p | p in t.slots ensures SlotFor(heap, t, p) && WithInterned(heap, t, p) {
      if p != o {
        assert SlotFor(heap, st, p) && WithInterned(heap, st, p);
      }
    }
    forall p, q | p in t.slots && q in t.slots ensures Shared(heap, t, p, q) {
      if p != o && q != o {
        assert Shared(heap, st, p, q);
      } else if p != o {
        NoEqualYet(heap, st, o, p);
        assert SlotFor(heap, st, p);
      } else if q != o {
        NoEqualYet(heap, st, o, q);
        assert SlotFor(heap, st, q);
      }
    }
  }

  lemma SharingSlotted(heap: Heap, st: Layout, o: ObjId, c: ObjId)
    requires WellFormed(heap) && Slotted(heap, st) && o in heap && o !in st.slots
    requires c in st.slots && c in st.words && c in heap
    requires SameString(heap, o, c) && heap[o].kind.value in st.interned && st.interned[heap[o].kind.value] == c
    ensures Slotted(heap, Sharing(st, o, c))
  {
    var t := Sharing(st, o, c);
    assert SlotFor(heap, st, c);
    forall p | p in t.slots ensures SlotFor(heap, t, p) && WithInterned(heap, t, p) {
      if p != o {
        assert SlotFor(heap, st, p) && WithInterned(heap, st, p);
      }
    }
    forall p, q | p in t.slots && q in t.slots ensures Shared(heap, t, p, q) {
      if p != o && q != o {
        assert Shared(heap, st, p, q);
      } else if p != o {
        assert Shared(heap, st, p, c) && SlotFor(heap, st, p);
      } else if q != o {
        assert Shared(heap, st, q, c) && SlotFor(heap, st, q);
      }
    }
  }

  lemma InterningSlotted(heap: Heap, st: Layout, o: ObjId)
    requires Slotted(heap, st) && o in heap && heap[o].kind.StringObject?
    ensures Slotted(heap, Interning(heap, st, o))
  {
    var t := Interning(heap, st, o);
    forall p | p in t.slots ensures SlotFor(heap, t, p) && WithInterned(heap, t, p) {
      assert SlotFor(heap, st, p) && WithInterned(heap, st, p);
    }
    forall p, q | p in t.slots && q in t.slots ensures Shared(heap, t, p, q) {
      assert Shared(heap, st, p, q);
    }
  }

  /** The header of a native array is at h, and its elements follow without gaps. */
  ghost predicate ArrayAt(allocs: seq<Alloc>, h: nat, r: Region, a: NativeArray) {
    && h + a.count < |allocs| && allocs[h].region == r && allocs[h].span == a.header
    && forall i :: h < i <= h + a.count ==>
         allocs[i].region == r && allocs[i].span == a.element
         && allocs[i].offset == allocs[i - 1].offset + allocs[i - 1].span
  }

  ghost predicate ArrayPlaced(heap: Heap, st: Layout, id: ArrayId)
    requires id in st.arrays
  {
    && id.owner in heap && id.index < |heap[id.owner].natives|
    && var a := heap[id.owner].natives[id.index];
       ArrayAt(st.allocs, st.arrays[id], Region(heap[id.owner].image, a.bin), a)
  }

  ghost predicate ArraysPlaced(heap: Heap, st: Layout) {
    forall id :: id in st.arrays ==> ArrayPlaced(heap, st, id)
  }

  lemma ArraysKept(heap: Heap, st: Layout, t: Layout)
    requires ArraysPlaced(heap, st) && st.allocs <= t.allocs && st.arrays == t.arrays
    ensures ArraysPlaced(heap, t)
  {
    forall id | id in t.arrays ensures ArrayPlaced(heap, t, id) {
      assert ArrayPlaced(heap, st, id);
    }
  }

  /** What the lock word of an object holds after the first pass. */
  function SlotWord(heap: Heap, st: Layout, o: ObjId): nat
    requires o in st.slots && SlotFor(heap, st, o)
  {
    Packed(BinFor(heap[o].kind).Number(), st.allocs[st.slots[o]].offset % WORD)
  }

  ghost predicate WordFor(heap: Heap, st: Layout, o: ObjId)
    requires o in st.words
  {
    o in st.slots && SlotFor(heap, st, o) && st.words[o] == SlotWord(heap, st, o)
  }

  ghost predicate Words(heap: Heap, st: Layout) {
    st.words.Keys == st.slots.Keys && forall o :: o in st.words ==> WordFor(heap, st, o)
  }

  lemma WordsAssigned(heap: Heap, st: Layout, o: ObjId)
    requires Words(heap, st) && o in heap && o !in st.words && !heap[o].inBootImage
    ensures Words(heap, Assigned(heap, st, o))
  {
    var t := Assigned(heap, st, o);
    forall p | p in t.words ensures WordFor(heap, t, p) {
      assert p != o ==> WordFor(heap, st, p);
    }
  }

  lemma WordsShared(heap: Heap, st: Layout, o: ObjId, c: ObjId)
    requires WellFormed(heap) && Words(heap, st) && o in heap && c in heap && o !in st.words && c in st.words
    requires SameString(heap, o, c)
    ensures Words(heap, Sharing(st, o, c))
  {
    var t := Sharing(st, o, c);
    assert WordFor(heap, st, c);
    forall p | p in t.words ensures WordFor(heap, t, p) {
      assert p != o ==> WordFor(heap, st, p);
    }
  }

  lemma WordsKept(heap: Heap, st: Layout, t: Layout)
    requires Words(heap, st) && st.slots == t.slots && st.words == t.words && st.allocs <= t.allocs
    ensures Words(heap, t)
  {
    forall p | p in t.words ensures WordFor(heap, t, p) {
      assert WordFor(heap, st, p);
    }
  }

  /** What every step of the first pass keeps. */
  ghost predicate Inv(heap: Heap, st: Layout) {
    Bumped(st) && ObjectAligned(st) && EndsAddUp(st) && Slotted(heap, st) && ArraysPlaced(heap, st)
    && Words(heap, st)
  }

  lemma {:induction false} SumIgnoresSlots(st: Layout, t: Layout, image: nat, n: nat)
    requires n <= BIN_COUNT && st.sizes == t.sizes
    ensures BinSizeSum(st, image, n) == BinSizeSum(t, image, n)
  {
    if n > 0 {
      SumIgnoresSlots(st, t, image, n - 1);
    }
  }

  /** Slots and the intern table do not matter to the allocations. */
  lemma SameAllocations(st: Layout, t: Layout)
    requires Bumped(st) && ObjectAligned(st) && EndsAddUp(st)
    requires st.allocs == t.allocs && st.sizes == t.sizes && st.ends == t.ends
    ensures Bumped(t) && ObjectAligned(t) && EndsAddUp(t)
  {
    forall i | 0 <= i < |t.allocs| ensures Inside(t, t.allocs[i]) {
      assert Inside(st, st.allocs[i]);
    }
    forall image ensures t.End(image) == BinSizeSum(t, image, MIRROR_BINS) {
      SumIgnoresSlots(st, t, image, MIRROR_BINS);
      assert st.End(image) == BinSizeSum(st, image, MIRROR_BINS);
    }
  }

  lemma AllocateInv(st: Layout, r: Region, span: nat)
    requires Bumped(st) && ObjectAligned(st) && EndsAddUp(st)
    requires r.bin.Mirror() ==> span % OBJECT_ALIGNMENT == 0
    ensures var t := Allocate(st, r, span); Bumped(t) && ObjectAligned(t) && EndsAddUp(t)
  {
    AllocateBumped(st, r, span);
    AllocateAligned(st, r, span);
    AllocateAddsUp(st, r, span);
  }

  lemma AssignedInv(heap: Heap, st: Layout, o: ObjId)
    requires Inv(heap, st) && o in heap && o !in st.slots && !heap[o].inBootImage
    requires heap[o].kind.StringObject? ==> heap[o].kind.value in st.interned && st.interned[heap[o].kind.value] == o
    ensures Inv(heap, Assigned(heap, st, o)) && Extends(st, Assigned(heap, st, o))
  {
    AllocateInv(st, RegionFor(heap[o]), Span(heap[o]));
    SameAllocations(Allocate(st, RegionFor(heap[o]), Span(heap[o])), Assigned(heap, st, o));
    AssignedSlotted(heap, st, o);
    ArraysKept(heap, st, Assigned(heap, st, o));
    WordsAssigned(heap, st, o);
  }

  lemma InterningInv(heap: Heap, st: Layout, o: ObjId)
    requires Inv(heap, st) && o in heap && heap[o].kind.StringObject?
    ensures Inv(heap, Interning(heap, st, o)) && Extends(st, Interning(heap, st, o))
  {
    SameAllocations(st, Interning(heap, st, o));
    InterningSlotted(heap, st, o);
    ArraysKept(heap, st, Interning(heap, st, o));
    WordsKept(heap, st, Interning(heap, st, o));
  }

  lemma SharingInv(heap: Heap, st: Layout, o: ObjId, c: ObjId)
    requires WellFormed(heap) && Inv(heap, st) && o in heap && o !in st.slots && c in st.slots && c in st.words
    requires c in heap
    requires SameString(heap, o, c) && heap[o].kind.value in st.interned && st.interned[heap[o].kind.value] == c
    ensures Inv(heap, Sharing(st, o, c)) && Extends(st, Sharing(st, o, c))
  {
    SameAllocations(st, Sharing(st, o, c));
    SharingSlotted(heap, st, o, c);
    ArraysKept(heap, st, Sharing(st, o, c));
    WordsShared(heap, st, o, c);
  }

  /** Giving an object a slot keeps everything, for strings of which there are several, too. */
  lemma CalculatedInv(heap: Heap, st: Layout, o: ObjId)
    requires WellFormed(heap) && Inv(heap, st) && o in heap && o !in st.slots && !heap[o].inBootImage
    ensures var t := Calculated(heap, st, o); Inv(heap, t) && Extends(st, t) && o in t.slots
  {
    if !heap[o].kind.StringObject? {
      AssignedInv(heap, st, o);
    } else {
      var c, s := InternedAs(heap, st, o), Interning(heap, st, o);
      InterningInv(heap, st, o);
      if c == o {
        AssignedInv(heap, s, o);
      } else {
        assert SameString(heap, o, c);
        if c !in s.slots {
          AssignedInv(heap, s, c);
        }
        SharingInv(heap, if c in s.slots then s else Assigned(heap, s, c), o, c);
      }
    }
  }

  /** The header and the first k elements of a native array. */
  function NativeAllocated(st: Layout, r: Region, a: NativeArray, k: nat): Layout {
    if k == 0 then Allocate(st, r, a.header) else Allocate(NativeAllocated(st, r, a, k - 1), r, a.element)
  }

  lemma {:induction false} NativeInv(st: Layout, r: Region, a: NativeArray, k: nat)
    requires Bumped(st) && ObjectAligned(st) && EndsAddUp(st) && !r.bin.Mirror()
    ensures var t := NativeAllocated(st, r, a, k);
            && Bumped(t) && ObjectAligned(t) && EndsAddUp(t)
            && st.allocs <= t.allocs && |t.allocs| == |st.allocs| + 1 + k
            && t == st.(allocs := t.allocs, sizes := t.sizes)
            && t.Size(r) == t.allocs[|t.allocs| - 1].offset + t.allocs[|t.allocs| - 1].span
            && ArrayAt(t.allocs, |st.allocs|, r, a.(count := k))
  {
    if k == 0 {
      AllocateInv(st, r, a.header);
    } else {
      NativeInv(st, r, a, k - 1);
      AllocateInv(NativeAllocated(st, r, a, k - 1), r, a.element);
    }
  }

  /** The native arrays of a class: fields, then methods. */
  function NativeAdded(heap: Heap, st: Layout, id: ArrayId): Layout
    requires id.owner in heap && id.index < |heap[id.owner].natives|
  {
    var a := heap[id.owner].natives[id.index];
    NativeAllocated(st, Region(heap[id.owner].image, a.bin), a, a.count).(arrays := st.arrays[id := |st.allocs|])
  }

  lemma NativeAddedInv(heap: Heap, st: Layout, id: ArrayId)
    requires WellFormed(heap) && Inv(heap, st) && id.owner in heap && id.index < |heap[id.owner].natives|
    ensures Inv(heap, NativeAdded(heap, st, id)) && Extends(st, NativeAdded(heap, st, id))
  {
    var a := heap[id.owner].natives[id.index];
    var r := Region(heap[id.owner].image, a.bin);
    var t := NativeAllocated(st, r, a, a.count);
    NativeInv(st, r, a, a.count);
    SameAllocations(t, NativeAdded(heap, st, id));
    ArraysKept(heap, st, t);
    NativeSlotted(heap, st, NativeAdded(heap, st, id));
    WordsKept(heap, st, NativeAdded(heap, st, id));
    forall x | x in NativeAdded(heap, st, id).arrays ensures ArrayPlaced(heap, NativeAdded(heap, st, id), x) {
      assert x != id ==> ArrayPlaced(heap, t, x);
    }
  }

  lemma NativeSlotted(heap: Heap, st: Layout, t: Layout)
    requires Slotted(heap, st) && st.allocs <= t.allocs && st.slots == t.slots && st.interned == t.interned
    ensures Slotted(heap, t)
  {
    forall o | o in t.slots ensures SlotFor(heap, t, o) && WithInterned(heap, t, o) {
      assert SlotFor(heap, st, o) && WithInterned(heap, st, o);
    }
    forall o, p | o in t.slots && p in t.slots ensures Shared(heap, t, o, p) {
      assert Shared(heap, st, o, p);
    }
  }

  /** Element i of a native array is behind the header and i elements. */
  lemma {:induction false} ElementAt(allocs: seq<Alloc>, h: nat, r: Region, a: NativeArray, i: nat)
    requires ArrayAt(allocs, h, r, a) && i < a.count
    ensures allocs[h + 1 + i].offset == allocs[h].offset + a.header + i * a.element
    ensures allocs[h + 1 + i].region == r && allocs[h + 1 + i].span == a.element
  {
    var at := h + 1 + i;
    assert allocs[at].offset == allocs[at - 1].offset + allocs[at - 1].span;
    if i > 0 {
      ElementAt(allocs, h, r, a, i - 1);
      assert i * a.element == (i - 1) * a.element + a.element;
    }
  }

  /** The steps of the first pass: an object gets its slot, a native array is forwarded. */
  datatype Step = Place(o: ObjId) | Forward(id: ArrayId)

  const EMPTY: Layout := Layout([], map[], map[], map[], map[], map[], map[])

  ghost predicate Enabled(heap: Heap, st: Layout, step: Step) {
    match step
    case Place(o) => o in heap && o !in st.slots && !heap[o].inBootImage && Interned(heap, st)
                     && st.slots.Keys == st.words.Keys
    case Forward(id) => id.owner in heap && id.index < |heap[id.owner].natives| && id !in st.arrays
  }

  ghost function Apply(heap: Heap, st: Layout, step: Step): Layout {
    if !Enabled(heap, st, step) then st else
    match step
    case Place(o) => Calculated(heap, st, o)
    case Forward(id) => NativeAdded(heap, st, id)
  }

  ghost function Replay(heap: Heap, steps: seq<Step>): Layout {
    if steps == [] then EMPTY else Apply(heap, Replay(heap, steps[..|steps| - 1]), steps[|steps| - 1])
  }

  lemma {:induction false} EmptySum(image: nat, n: nat)
    requires n <= BIN_COUNT
    ensures BinSizeSum(EMPTY, image, n) == 0
  {
    if n > 0 {
      EmptySum(image, n - 1);
    }
  }

  lemma EmptyInv(heap: Heap)
    ensures Inv(heap, EMPTY)
  {
    forall image ensures EMPTY.End(image) == BinSizeSum(EMPTY, image, MIRROR_BINS) {
      EmptySum(image, MIRROR_BINS);
    }
  }

  lemma ApplyInv(heap: Heap, st: Layout, step: Step)
    requires WellFormed(heap) && Inv(heap, st)
    ensures Inv(heap, Apply(heap, st, step)) && Extends(st, Apply(heap, st, step))
  {
    if Enabled(heap, st, step) {
      match step
      case Place(o) => CalculatedInv(heap, st, o);
      case Forward(id) => NativeAddedInv(heap, st, id);
    }
  }

  /** The invariant holds after every sequence of steps. */
  lemma {:induction false} ReplayInv(heap: Heap, steps: seq<Step>)
    requires WellFormed(heap)
    ensures Inv(heap, Replay(heap, steps))
  {
    if steps == [] {
      EmptyInv(heap);
    } else {
      ReplayInv(heap, steps[..|steps| - 1]);
      ApplyInv(heap, Replay(heap, steps[..|steps| - 1]), steps[|steps| - 1]);
    }
  }

  lemma ReplayOn(heap: Heap, steps: seq<Step>, step: Step)
    ensures Replay(heap, steps + [step]) == Apply(heap, Replay(heap, steps), step)
  {
    assert (steps + [step])[..|steps|] == steps;
  }

  /** All allocations are for one of the images. */
  predicate InImages(st: Layout, images: nat) {
    forall i :: 0 <= i < |st.allocs| ==> st.allocs[i].region.image < images
  }

  lemma {:induction false} NativeInImages(st: Layout, r: Region, a: NativeArray, k: nat, images: nat)
    requires InImages(st, images) && r.image < images
    ensures InImages(NativeAllocated(st, r, a, k), images)
  {
    if k > 0 {
      NativeInImages(st, r, a, k - 1, images);
    }
  }

  lemma {:induction false} ReplayInImages(heap: Heap, steps: seq<Step>, images: nat)
    requires forall o :: o in heap ==> heap[o].image < images
    ensures InImages(Replay(heap, steps), images)
  {
    if steps != [] {
      var st, step := Replay(heap, steps[..|steps| - 1]), steps[|steps| - 1];
      ReplayInImages(heap, steps[..|steps| - 1], images);
      if Enabled(heap, st, step) && step.Forward? {
        var a := heap[step.id.owner].natives[step.id.index];
        NativeInImages(st, Region(heap[step.id.owner].image, a.bin), a, a.count, images);
      }
    }
  }
}
