/**
 * Writing the image (compiler/image_writer.cc, CopyAndFixupObjects): every object is copied to its
 * offset and its references are replaced by the addresses their targets will have.
 */
module ImageCopy {
  import opened OatTypes
  import opened ImageBins
  import opened ImageOffsets
  import opened ImageDemand
  import opened ImageWalk

  /** A native array that is written, or one of its elements: a field or a method. */
  datatype NativeRef = WholeArray(id: ArrayId) | OneElement(id: ArrayId, index: nat)

  /**
   * Four bytes of an object: data, data that is cleared in the copy (the thread that initialises a
   * class, the class table and allocator of a class loader), a reference, a pointer to native data (in
   * classes, dex caches and pointer arrays), or the pointer of a method object to its method. Pointers
   * into the boot image stay as they are and count as data.
   */
  datatype Cell =
    | Data(word: nat)
    | Cleared(word: nat)
    | Ref(target: Option<ObjId>)
    | Pointer(pointee: NativeRef)
    | MethodPointer(pointee: NativeRef)

  /** Four bytes of the image; `Original` is what has not been replaced yet. */
  datatype ImageCell = Plain(word: nat) | Original(cell: Cell) | Address(address: nat)

  /** Four bytes at an offset in one of the images. */
  datatype ImagePlace = ImagePlace(image: nat, offset: nat)

  /** The lock word and, for strings, the cached hash code: what equal strings may differ in. */
  const LOCK_CELL: nat := 1
  const STRING_HASH_CELL: nat := 3

  datatype Env = Env(heap: Heap, contents: map<ObjId, seq<Cell>>, lockWords: map<ObjId, nat>,
                     offsets: map<ObjId, nat>, arrays: map<ArrayId, nat>, natives: map<nat, nat>,
                     imageBegins: seq<nat>, bootAddresses: map<ObjId, nat>)
  {
    /** The objects that are copied. */
    predicate Copied(o: ObjId) {
      o in heap && !heap[o].inBootImage
    }

    ghost predicate SameCells(o: ObjId, p: ObjId)
      requires o in contents && p in contents
    {
      && |contents[o]| == |contents[p]|
      && forall k :: 0 <= k < |contents[o]| && k != LOCK_CELL && k != STRING_HASH_CELL ==>
           contents[o][k] == contents[p][k]
    }

    ghost predicate ContentsFit(o: ObjId) {
      o in heap && o in contents && |contents[o]| >= 2 && 4 * |contents[o]| <= Span(heap[o])
    }

    /** Native data that belongs to an object that is copied. */
    predicate HasNative(n: NativeRef) {
      && Copied(n.id.owner) && n.id.index < |heap[n.id.owner].natives|
      && (n.OneElement? ==> n.index < heap[n.id.owner].natives[n.id.index].count)
    }

    /** References lead to objects and pointers to native data of the heap; the lock word is data. */
    ghost predicate CellFits(o: ObjId, k: nat) {
      o in contents && k < |contents[o]| ==>
        match contents[o][k]
        case Data(_) => true
        case Cleared(_) => k != LOCK_CELL
        case Ref(r) => k != LOCK_CELL && (r.Some? ==> r.value in heap)
        case Pointer(n) => k != LOCK_CELL && HasNative(n)
        case MethodPointer(n) => k != LOCK_CELL && HasNative(n)
    }

    /** Equal strings have equal contents and go to the same image. */
    ghost predicate StringsFit(o: ObjId, p: ObjId) {
      Copied(o) && Copied(p) && o in contents && p in contents && SameString(heap, o, p) ==>
        SameCells(o, p) && heap[o].image == heap[p].image
    }

    /** The objects themselves, before they have offsets. */
    ghost predicate Sound() {
      && (forall o :: o in heap ==> ContentsFit(o) && heap[o].image < |imageBegins|)
      && (forall o :: o in heap && heap[o].inBootImage ==> o in bootAddresses)
      && (forall o, k :: CellFits(o, k))
      && (forall o, p :: StringsFit(o, p))
    }

    ghost predicate PairFits(o: ObjId, p: ObjId) {
      Copied(o) && Copied(p) && o in offsets && p in offsets && o != p ==>
        Apart(heap, o, p, offsets[o], offsets[p])
    }

    /** The array and all its elements have offsets. */
    ghost predicate ArrayAddressed(o: ObjId, i: nat) {
      Copied(o) && i < |heap[o].natives| ==>
        && ArrayId(o, i) in arrays && arrays[ArrayId(o, i)] in natives
        && forall j :: 0 <= j < heap[o].natives[i].count ==> ElementAddressed(arrays[ArrayId(o, i)], j)
    }

    predicate ElementAddressed(h: nat, j: nat) {
      h + 1 + j in natives
    }

    /** All objects that are copied have offsets, and so have their native arrays. */
    ghost predicate Addressed() {
      Sound() && (forall o :: Copied(o) ==> o in offsets) && (forall o, i :: ArrayAddressed(o, i))
    }

    /** The offsets keep the objects apart. */
    ghost predicate Valid() {
      Addressed() && forall o, p :: PairFits(o, p)
    }

    /** GetImageAddress. */
    function ImageAddress(r: Option<ObjId>): nat
      requires Addressed() && (r.Some? ==> r.value in heap)
    {
      match r
      case None => 0
      case Some(o) =>
        if heap[o].inBootImage then bootAddresses[o] else imageBegins[heap[o].image] + offsets[o]
    }

    /** The offset of native data in its image, from the native relocations. */
    function NativeOffset(n: NativeRef): nat
      requires Addressed() && HasNative(n)
    {
      assert ArrayAddressed(n.id.owner, n.id.index) && ArrayId(n.id.owner, n.id.index) == n.id;
      match n
      case WholeArray(id) => natives[arrays[id]]
      case OneElement(id, j) => assert ElementAddressed(arrays[id], j); natives[arrays[id] + 1 + j]
    }

    /** NativeLocationInImage. */
    function NativeAddress(n: NativeRef): nat
      requires Addressed() && HasNative(n)
    {
      imageBegins[heap[n.id.owner].image] + NativeOffset(n)
    }

    /** What FixupObject puts into a method object: it counts from the begin of the first image. */
    function MethodAddress(n: NativeRef): nat
      requires Addressed() && HasNative(n)
    {
      imageBegins[0] + NativeOffset(n)
    }

    function PlaceOf(o: ObjId, k: nat): ImagePlace
      requires o in heap && o in offsets
    {
      ImagePlace(heap[o].image, offsets[o] + 4 * k)
    }

    /** The lock word a copy gets: the hash code saved for the object, if there was one. */
    function NewLockWord(o: ObjId): nat {
      if o in lockWords then lockWords[o] else 0
    }

    /** What cell k of the copy of o has to hold. */
    function Final(o: ObjId, k: nat): ImageCell
      requires Addressed() && o in heap && k < |contents[o]|
    {
      if k == LOCK_CELL then Plain(NewLockWord(o)) else
      assert CellFits(o, k);
      match contents[o][k]
      case Data(word) => Plain(word)
      case Cleared(_) => Plain(0)
      case Ref(r) => Address(ImageAddress(r))
      case Pointer(n) => Address(NativeAddress(n))
      case MethodPointer(n) => Address(MethodAddress(n))
    }
  }

  function Raw(c: Cell): ImageCell {
    if c.Data? || c.Cleared? then Plain(c.word) else Original(c)
  }

  /** The place belongs to the copy of o. */
  predicate InCopy(env: Env, o: ObjId, q: ImagePlace)
    requires o in env.heap && o in env.offsets
  {
    q.image == env.heap[o].image && env.offsets[o] <= q.offset < env.offsets[o] + Span(env.heap[o])
  }

  predicate SameAt(before: map<ImagePlace, ImageCell>, after: map<ImagePlace, ImageCell>, q: ImagePlace) {
    (q in before <==> q in after) && (q in before ==> before[q] == after[q])
  }

  /** Nothing outside the copy of o changes. */
  ghost predicate Untouched(env: Env, before: map<ImagePlace, ImageCell>, after: map<ImagePlace, ImageCell>, o: ObjId)
    requires o in env.heap && o in env.offsets
  {
    forall q :: !InCopy(env, o, q) ==> SameAt(before, after, q)
  }

  ghost predicate HoldsCopy(env: Env, memory: map<ImagePlace, ImageCell>, o: ObjId, source: ObjId)
    requires env.Addressed() && env.Copied(o) && source in env.heap
  {
    && |env.contents[o]| == |env.contents[source]|
    && forall k :: 0 <= k < |env.contents[o]| ==>
         env.PlaceOf(o, k) in memory && memory[env.PlaceOf(o, k)] == env.Final(source, k)
  }

  class ImageCopier {
    const env: Env
    var memory: map<ImagePlace, ImageCell>

    constructor (env: Env)
      ensures this.env == env && memory == map[]
    {
      this.env := env;
      memory := map[];
    }

    /** memcpy of the object to its place in the image. */
    method CopyCells(o: ObjId)
      requires env.ContentsFit(o) && o in env.offsets
      modifies `memory
      ensures Untouched(env, old(memory), memory, o)
      ensures forall k :: 0 <= k < |env.contents[o]| ==>
                env.PlaceOf(o, k) in memory && memory[env.PlaceOf(o, k)] == Raw(env.contents[o][k])
    {
      var k := 0;
      while k < |env.contents[o]|
        invariant 0 <= k <= |env.contents[o]| && Untouched(env, old(memory), memory, o)
        invariant forall j :: 0 <= j < k ==>
                    env.PlaceOf(o, j) in memory && memory[env.PlaceOf(o, j)] == Raw(env.contents[o][j])
      {
        memory := memory[env.PlaceOf(o, k) := Raw(env.contents[o][k])];
        k := k + 1;
      }
    }

    /** Rewrites the references and pointers of the copy, whose lock word is already set. */
    method FixupObject(o: ObjId)
      requires env.Addressed() && env.Copied(o)
      requires forall k :: 0 <= k < |env.contents[o]| ==>
                 && env.PlaceOf(o, k) in memory
                 && memory[env.PlaceOf(o, k)] ==
                    if k == LOCK_CELL then Plain(env.NewLockWord(o)) else Raw(env.contents[o][k])
      modifies `memory
      ensures Untouched(env, old(memory), memory, o)
      ensures HoldsCopy(env, memory, o, o)
    {
      assert env.ContentsFit(o);
      var cells, k := env.contents[o], 0;
      while k < |cells|
        invariant 0 <= k <= |cells| && Untouched(env, old(memory), memory, o)
        invariant forall j :: 0 <= j < |cells| ==> env.PlaceOf(o, j) in memory
        invariant forall j :: 0 <= j < k ==> memory[env.PlaceOf(o, j)] == env.Final(o, j)
        invariant forall j :: k <= j < |cells| ==> memory[env.PlaceOf(o, j)] == old(memory[env.PlaceOf(o, j)])
      {
        assert env.CellFits(o, k);
        match cells[k] {
          case Data(_) =>
          case Cleared(_) => memory := memory[env.PlaceOf(o, k) := Plain(0)];
          case Ref(r) => memory := memory[env.PlaceOf(o, k) := Address(env.ImageAddress(r))];
          case Pointer(n) => memory := memory[env.PlaceOf(o, k) := Address(env.NativeAddress(n))];
          case MethodPointer(n) => memory := memory[env.PlaceOf(o, k) := Address(env.MethodAddress(n))];
        }
        k := k + 1;
      }
    }

    method CopyAndFixupObject(o: ObjId)
      requires env.Addressed() && o in env.heap
      modifies `memory
      ensures env.heap[o].inBootImage ==> memory == old(memory)
      ensures env.Copied(o) ==> Untouched(env, old(memory), memory, o) && HoldsCopy(env, memory, o, o)
    {
      if env.heap[o].inBootImage {
        return;
      }
      assert env.ContentsFit(o);
      CopyCells(o);
      memory := memory[env.PlaceOf(o, LOCK_CELL) := Plain(env.NewLockWord(o))];
      FixupObject(o);
    }

    /**
     * All objects, in any order: if the offsets keep them apart, the copy of an object holds what the
     * last copied of the strings equal to it put there, which is the object itself if there is no
     * other.
     */
    method CopyAndFixupObjects(order: seq<ObjId>)
      requires env.Addressed() && forall x :: x in order ==> x in env.heap
      modifies `memory
      ensures env.Valid() ==> CopiesUpTo(env, memory, order, |order|)
    {
      var i := 0;
      while i < |order|
        invariant 0 <= i <= |order| && (env.Valid() ==> CopiesUpTo(env, memory, order, i))
      {
        ghost var before := memory;
        CopyAndFixupObject(order[i]);
        if env.Valid() {
          CopiesOn(env, before, memory, order, i);
        }
        i := i + 1;
      }
    }
  }

  ghost predicate CopiesUpTo(env: Env, memory: map<ImagePlace, ImageCell>, order: seq<ObjId>, n: nat)
    requires env.Valid() && n <= |order| && forall x :: x in order ==> x in env.heap
  {
    forall j :: 0 <= j < n && env.Copied(order[j]) ==>
      HoldsCopy(env, memory, order[j], LastCopied(env, order, n, order[j]))
  }

  lemma CopiesOn(env: Env, before: map<ImagePlace, ImageCell>, after: map<ImagePlace, ImageCell>,
                 order: seq<ObjId>, i: nat)
    requires env.Valid() && i < |order| && (forall x :: x in order ==> x in env.heap)
    requires CopiesUpTo(env, before, order, i)
    requires !env.Copied(order[i]) ==> after == before
    requires env.Copied(order[i]) ==>
               Untouched(env, before, after, order[i]) && HoldsCopy(env, after, order[i], order[i])
    ensures CopiesUpTo(env, after, order, i + 1)
  {
    forall j | 0 <= j <= i && env.Copied(order[j])
      ensures HoldsCopy(env, after, order[j], LastCopied(env, order, i + 1, order[j]))
    {
      CopyStep(env, before, after, order, i, order[j]);
    }
  }

  lemma CopyHeld(env: Env, memory: map<ImagePlace, ImageCell>, order: seq<ObjId>, o: ObjId)
    requires env.Valid() && (forall x :: x in order ==> x in env.heap) && CopiesUpTo(env, memory, order, |order|)
    requires env.Copied(o) && o in order
    ensures HoldsCopy(env, memory, o, LastCopied(env, order, |order|, o))
  {
    var j :| 0 <= j < |order| && order[j] == o;
  }

  /** The last object among the first n that is copied to the place of o. */
  ghost function LastCopied(env: Env, order: seq<ObjId>, n: nat, o: ObjId): (p: ObjId)
    requires n <= |order| && o in env.heap && forall i :: 0 <= i < n ==> order[i] in env.heap
    ensures p in env.heap && (p == o || (env.Copied(p) && SameString(env.heap, p, o)))
  {
    if n == 0 then o
    else if env.Copied(order[n - 1]) && (order[n - 1] == o || SameString(env.heap, order[n - 1], o)) then order[n - 1]
    else LastCopied(env, order, n - 1, o)
  }

  lemma PlaceKept(env: Env, before: map<ImagePlace, ImageCell>, after: map<ImagePlace, ImageCell>,
                  p: ObjId, o: ObjId, k: nat)
    requires env.Valid() && env.Copied(p) && env.Copied(o) && p != o && !SameString(env.heap, p, o)
    requires Untouched(env, before, after, p) && k < |env.contents[o]|
    ensures SameAt(before, after, env.PlaceOf(o, k))
  {
    assert env.ContentsFit(o) && env.PairFits(p, o);
    assert !InCopy(env, p, env.PlaceOf(o, k));
  }

  /** Copying p leaves every other copy as it was, or turns the copy of an equal string into its own. */
  lemma CopyKept(env: Env, before: map<ImagePlace, ImageCell>, after: map<ImagePlace, ImageCell>,
                 p: ObjId, o: ObjId, source: ObjId)
    requires env.Valid() && env.Copied(p) && env.Copied(o) && p != o && source in env.heap
    requires HoldsCopy(env, before, o, source) && Untouched(env, before, after, p) && HoldsCopy(env, after, p, p)
    ensures HoldsCopy(env, after, o, if SameString(env.heap, p, o) then p else source)
  {
    if SameString(env.heap, p, o) {
      assert env.PairFits(p, o) && env.StringsFit(p, o);
      forall k | 0 <= k < |env.contents[o]|
        ensures env.PlaceOf(o, k) in after && after[env.PlaceOf(o, k)] == env.Final(p, k)
      {
        assert env.PlaceOf(o, k) == env.PlaceOf(p, k);
      }
    } else {
      forall k | 0 <= k < |env.contents[o]|
        ensures env.PlaceOf(o, k) in after && after[env.PlaceOf(o, k)] == env.Final(source, k)
      {
        PlaceKept(env, before, after, p, o, k);
      }
    }
  }

  /** What the object copied at position i means for the copy of o. */
  lemma CopyStep(env: Env, before: map<ImagePlace, ImageCell>, after: map<ImagePlace, ImageCell>,
                 order: seq<ObjId>, i: nat, o: ObjId)
    requires env.Valid() && i < |order| && env.Copied(o) && forall j :: 0 <= j < |order| ==> order[j] in env.heap
    requires o != order[i] ==> HoldsCopy(env, before, o, LastCopied(env, order, i, o))
    requires !env.Copied(order[i]) ==> after == before
    requires env.Copied(order[i]) ==>
               Untouched(env, before, after, order[i]) && HoldsCopy(env, after, order[i], order[i])
    ensures HoldsCopy(env, after, o, LastCopied(env, order, i + 1, o))
  {
    if env.Copied(order[i]) && o != order[i] {
      CopyKept(env, before, after, order[i], o, LastCopied(env, order, i, o));
    }
  }

  /** A cell in which equal strings may differ. */
  predicate Volatile(env: Env, o: ObjId, k: nat)
    requires o in env.heap
  {
    env.heap[o].kind.StringObject? && (k == LOCK_CELL || k == STRING_HASH_CELL)
  }

  /**
   * The image is a copy of the heap: every cell of every object is the object's own, with each
   * reference replaced by the address of its target. The lock word and the cached hash code of a
   * string are those of the equal string copied last, so the lock word is its own exactly if both
   * had the same hash code saved.
   */
  lemma ImageIsCopy(env: Env, memory: map<ImagePlace, ImageCell>, order: seq<ObjId>, o: ObjId, k: nat)
    requires env.Valid() && (forall x :: x in order ==> x in env.heap) && env.Copied(o)
    requires HoldsCopy(env, memory, o, LastCopied(env, order, |order|, o)) && k < |env.contents[o]|
    ensures env.PlaceOf(o, k) in memory
    ensures !Volatile(env, o, k) ==> memory[env.PlaceOf(o, k)] == env.Final(o, k)
    ensures memory[env.PlaceOf(o, k)] == env.Final(LastCopied(env, order, |order|, o), k)
    ensures k == LOCK_CELL ==>
              (memory[env.PlaceOf(o, k)] == env.Final(o, k) <==>
               env.NewLockWord(LastCopied(env, order, |order|, o)) == env.NewLockWord(o))
  {
    CopyOf(env, memory, o, LastCopied(env, order, |order|, o), k);
  }

  lemma CopyOf(env: Env, memory: map<ImagePlace, ImageCell>, o: ObjId, p: ObjId, k: nat)
    requires env.Valid() && env.Copied(o) && env.Copied(p) && (p == o || SameString(env.heap, p, o))
    requires HoldsCopy(env, memory, o, p) && k < |env.contents[o]|
    ensures env.PlaceOf(o, k) in memory && memory[env.PlaceOf(o, k)] == env.Final(p, k)
    ensures !Volatile(env, o, k) ==> env.Final(p, k) == env.Final(o, k)
  {
    if p != o {
      assert env.StringsFit(p, o);
    }
  }

  /** Two equal strings of which the first has an identity hash code: the second one overwrites it. */
  lemma HashCodeLost()
    ensures var text := Obj(16, StringObject(7), 0, false, [], []);
            var cells := [Ref(None), Data(0), Data(0), Data(0)];
            var env := Env(map[0 := text, 1 := text], map[0 := cells, 1 := cells], map[0 := 5],
                           map[0 := 8, 1 := 8], map[], map[], [0], map[]);
            && env.Valid() && LastCopied(env, [0, 1], 2, 0) == 1
            && env.Final(1, LOCK_CELL) != env.Final(0, LOCK_CELL)
  {
  }

  /** Following a reference in the image leads to the copy of the object it pointed to. */
  lemma ReferenceLeadsToCopy(env: Env, memory: map<ImagePlace, ImageCell>, order: seq<ObjId>,
                             o: ObjId, k: nat, r: ObjId, j: nat)
    requires env.Valid() && (forall x :: x in order ==> x in env.heap) && env.Copied(o) && env.Copied(r)
    requires o in order && r in order && CopiesUpTo(env, memory, order, |order|)
    requires k < |env.contents[o]| && !Volatile(env, o, k) && env.contents[o][k] == Ref(Some(r))
    requires j < |env.contents[r]| && !Volatile(env, r, j)
    ensures env.PlaceOf(o, k) in memory && env.PlaceOf(r, j) in memory
    ensures memory[env.PlaceOf(o, k)] == Address(env.imageBegins[env.heap[r].image] + env.PlaceOf(r, 0).offset)
    ensures memory[env.PlaceOf(r, j)] == env.Final(r, j)
  {
    assert env.CellFits(o, k);
    CopyHeld(env, memory, order, o);
    CopyHeld(env, memory, order, r);
    ImageIsCopy(env, memory, order, o, k);
    ImageIsCopy(env, memory, order, r, j);
  }

  /** Following a pointer in the image leads to the native array, field or method it pointed to. */
  lemma PointerLeadsToNative(env: Env, memory: map<ImagePlace, ImageCell>, order: seq<ObjId>, o: ObjId, k: nat)
    requires env.Valid() && (forall x :: x in order ==> x in env.heap) && env.Copied(o) && o in order
    requires CopiesUpTo(env, memory, order, |order|)
    requires k < |env.contents[o]| && !Volatile(env, o, k) && env.contents[o][k].Pointer?
    ensures var n := env.contents[o][k].pointee;
            && env.PlaceOf(o, k) in memory && env.HasNative(n)
            && memory[env.PlaceOf(o, k)] == Address(env.imageBegins[env.heap[n.id.owner].image] + env.NativeOffset(n))
  {
    assert env.CellFits(o, k);
    CopyHeld(env, memory, order, o);
    ImageIsCopy(env, memory, order, o, k);
  }

  /** The pointer of a method object leads to its method exactly if that is in an image with the first begin. */
  lemma MethodPointerLeads(env: Env, memory: map<ImagePlace, ImageCell>, order: seq<ObjId>, o: ObjId, k: nat)
    requires env.Valid() && (forall x :: x in order ==> x in env.heap) && env.Copied(o) && o in order
    requires CopiesUpTo(env, memory, order, |order|)
    requires k < |env.contents[o]| && !Volatile(env, o, k) && env.contents[o][k].MethodPointer?
    ensures var n := env.contents[o][k].pointee;
            && env.PlaceOf(o, k) in memory && env.HasNative(n)
            && (memory[env.PlaceOf(o, k)] == Address(env.NativeAddress(n)) <==>
                env.imageBegins[env.heap[n.id.owner].image] == env.imageBegins[0])
  {
    assert env.CellFits(o, k);
    CopyHeld(env, memory, order, o);
    ImageIsCopy(env, memory, order, o, k);
  }

  /** A class with one method in the second of two images: its method object is led to the first. */
  lemma MethodOfSecondImage()
    ensures var klass := Obj(16, ClassObject(true, []), 1, false, [], [NativeArray(ArtMethodClean, 8, 32, 1)]);
            var reflected := Obj(16, OtherObject, 0, false, [], []);
            var cells := [Ref(None), Data(0), Data(0), Data(0)];
            var n := OneElement(ArrayId(0, 0), 0);
            var env := Env(map[0 := klass, 1 := reflected],
                           map[0 := cells, 1 := [Ref(None), Data(0), Data(0), MethodPointer(n)]], map[],
                           map[0 := 8, 1 := 8], map[ArrayId(0, 0) := 2], map[2 := 24, 3 := 32], [0, 4096], map[]);
            && env.Valid() && env.HasNative(n)
            && env.Final(1, 3) == Address(32) && env.NativeAddress(n) == 4128
  {
    assert Span(Obj(16, OtherObject, 0, false, [], [])) == 16;
  }

  /** A native array starts behind the objects of its image. */
  predicate ArrayBehind(env: Env, o: ObjId, id: ArrayId) {
    && o in env.heap && id.owner in env.heap && o in env.offsets && id in env.arrays && env.arrays[id] in env.natives
    && (env.heap[o].image == env.heap[id.owner].image ==>
          env.offsets[o] + env.heap[o].size <= env.natives[env.arrays[id]])
  }

  /** The elements follow the header in a row. */
  ghost predicate ElementsInRow(env: Env, id: ArrayId) {
    && id.owner in env.heap && id.index < |env.heap[id.owner].natives| && id in env.arrays
    && forall j :: 0 <= j < env.heap[id.owner].natives[id.index].count ==>
         ElementRelocated(env.natives, env.arrays[id], env.heap[id.owner].natives[id.index], j)
  }

  /** An address of native data, counted from `begin`: the array, or the element behind its header. */
  predicate NativeFrom(env: Env, begin: nat, n: NativeRef, v: ImageCell) {
    && n.id in env.arrays && env.arrays[n.id] in env.natives
    && n.id.owner in env.heap && n.id.index < |env.heap[n.id.owner].natives|
    && var a, header := env.heap[n.id.owner].natives[n.id.index], env.natives[env.arrays[n.id]];
       match n
       case WholeArray(_) => v == Address(begin + header)
       case OneElement(_, j) => v == Address(begin + header + a.header + j * a.element)
  }

  /** What a cell of an object is in the image. */
  predicate Translated(env: Env, c: Cell, v: ImageCell) {
    match c
    case Data(word) => v == Plain(word)
    case Cleared(_) => v == Plain(0)
    case Ref(None) => v == Address(0)
    case Ref(Some(r)) =>
      r in env.heap
      && if env.heap[r].inBootImage then r in env.bootAddresses && v == Address(env.bootAddresses[r])
         else r in env.offsets && env.heap[r].image < |env.imageBegins|
              && v == Address(env.imageBegins[env.heap[r].image] + env.offsets[r])
    case Pointer(n) =>
      n.id.owner in env.heap && env.heap[n.id.owner].image < |env.imageBegins|
      && NativeFrom(env, env.imageBegins[env.heap[n.id.owner].image], n, v)
    case MethodPointer(n) => env.imageBegins != [] && NativeFrom(env, env.imageBegins[0], n, v)
  }

  /** order[i] is the last that is copied to the place of o: o itself or a string equal to it. */
  ghost predicate LastToPlace(env: Env, order: seq<ObjId>, o: ObjId, i: nat)
    requires i < |order| && o in env.heap && forall x :: x in order ==> x in env.heap
  {
    ToPlace(env, order[i], o) && forall j :: i < j < |order| ==> !ToPlace(env, order[j], o)
  }

  ghost predicate ToPlace(env: Env, x: ObjId, o: ObjId)
    requires x in env.heap && o in env.heap
  {
    !env.heap[x].inBootImage && (x == o || SameString(env.heap, x, o))
  }

  /**
   * Cell k of the copy of o in the image: the lock word is the one saved for the object copied last
   * to that place, or 0; any other cell is that object's, translated, and but for the cached hash code
   * of a string it is the translation of the cell of o.
   */
  ghost predicate CellInImage(env: Env, image: map<ImagePlace, ImageCell>, order: seq<ObjId>, o: ObjId, k: nat)
    requires o in env.heap && o in env.contents && k < |env.contents[o]| && forall x :: x in order ==> x in env.heap
  {
    && o in env.offsets && ImagePlace(env.heap[o].image, env.offsets[o] + 4 * k) in image
    && var v := image[ImagePlace(env.heap[o].image, env.offsets[o] + 4 * k)];
       && (k != 1 && !(env.heap[o].kind.StringObject? && k == 3) ==> Translated(env, env.contents[o][k], v))
       && exists i :: 0 <= i < |order| && LastToPlace(env, order, o, i) && FromLast(env, order[i], k, v)
  }

  predicate FromLast(env: Env, s: ObjId, k: nat, v: ImageCell) {
    if k == 1 then v == Plain(if s in env.lockWords then env.lockWords[s] else 0)
    else s in env.contents && k < |env.contents[s]| && Translated(env, env.contents[s][k], v)
  }

  lemma NativeTranslated(env: Env, begin: nat, n: NativeRef)
    requires env.Addressed() && AllInRow(env) && env.HasNative(n)
    ensures NativeFrom(env, begin, n, Address(begin + env.NativeOffset(n)))
  {
    assert env.ArrayAddressed(n.id.owner, n.id.index) && ArrayId(n.id.owner, n.id.index) == n.id;
    assert n.id.owner in Written(env.heap) && ElementsInRow(env, ArrayId(n.id.owner, n.id.index));
    if n.OneElement? {
      assert ElementRelocated(env.natives, env.arrays[n.id], env.heap[n.id.owner].natives[n.id.index], n.index);
    }
  }

  lemma FinalTranslated(env: Env, o: ObjId, k: nat)
    requires env.Addressed() && AllInRow(env) && o in env.heap && k < |env.contents[o]| && k != LOCK_CELL
    ensures Translated(env, env.contents[o][k], env.Final(o, k))
  {
    assert env.CellFits(o, k);
    match env.contents[o][k]
    case Data(_) =>
    case Cleared(_) =>
    case Ref(_) =>
    case Pointer(n) => NativeTranslated(env, env.imageBegins[env.heap[n.id.owner].image], n);
    case MethodPointer(n) => NativeTranslated(env, env.imageBegins[0], n);
  }

  lemma {:induction false} LastCopiedIs(env: Env, order: seq<ObjId>, n: nat, o: ObjId) returns (i: nat)
    requires n <= |order| && env.Copied(o) && (forall x :: x in order ==> x in env.heap) && o in order[..n]
    ensures i < n && order[i] == LastCopied(env, order, n, o) && ToPlace(env, order[i], o)
    ensures forall j :: i < j < n ==> !ToPlace(env, order[j], o)
  {
    if ToPlace(env, order[n - 1], o) {
      i := n - 1;
    } else {
      assert order[..n] == order[..n - 1] + [order[n - 1]];
      i := LastCopiedIs(env, order, n - 1, o);
    }
  }

  /** Every cell of every object, without reference to how the copy is made. */
  lemma CellsInImage(env: Env, image: map<ImagePlace, ImageCell>, order: seq<ObjId>, o: ObjId, k: nat)
    requires env.Valid() && AllInRow(env) && (forall x :: x in order ==> x in env.heap)
    requires CopiesUpTo(env, image, order, |order|) && env.Copied(o) && o in order && k < |env.contents[o]|
    ensures CellInImage(env, image, order, o, k)
  {
    CopyHeld(env, image, order, o);
    ImageIsCopy(env, image, order, o, k);
    var s := LastCopied(env, order, |order|, o);
    assert order[..|order|] == order;
    var i := LastCopiedIs(env, order, |order|, o);
    if k != LOCK_CELL {
      FinalTranslated(env, s, k);
      if !Volatile(env, o, k) {
        FinalTranslated(env, o, k);
      }
    }
    assert LastToPlace(env, order, o, i) && FromLast(env, order[i], k, image[env.PlaceOf(o, k)]);
  }

  ghost predicate AllBehind(env: Env) {
    forall o, p, i :: o in Written(env.heap) && p in Written(env.heap) && 0 <= i < |env.heap[p].natives| ==>
                        ArrayBehind(env, o, ArrayId(p, i))
  }

  ghost predicate AllInRow(env: Env) {
    forall p, i :: p in Written(env.heap) && 0 <= i < |env.heap[p].natives| ==> ElementsInRow(env, ArrayId(p, i))
  }

  /** The layout as the copy needs it: the offsets of the objects and of their native data. */
  method PlaceObjects(env: Env, target: Target, order: seq<ObjId>) returns (placed: Env)
    requires env.Sound() && WellFormed(env.heap) && target.Valid() && forall o :: o in order <==> o in env.heap
    ensures placed == env.(offsets := placed.offsets, arrays := placed.arrays, natives := placed.natives)
    ensures placed.Addressed() && AllInRow(placed)
    ensures HeapFits(env.heap) ==> placed.Valid() && AllBehind(placed)
  {
    var writer := new ImageWriter(env.heap);
    var offsets, natives, binOffsets := writer.CalculateNewObjectOffsets(target, |env.imageBegins|, order);
    placed := env.(offsets := offsets, arrays := writer.arrays, natives := natives);
    OffsetsFit(env, placed, target, writer.State());
    if HeapFits(env.heap) {
      PlacedFits(placed);
      ArraysBehind(placed, target, writer.State());
    }
  }

  /**
   * Layout and copy together. If the heap fits, every object of the heap is in the image that comes
   * back, with its references and with its pointers to the native data behind the objects.
   */
  method WriteImage(env: Env, target: Target, order: seq<ObjId>)
    returns (image: map<ImagePlace, ImageCell>, placed: Env)
    requires env.Sound() && WellFormed(env.heap) && target.Valid() && forall o :: o in order <==> o in env.heap
    ensures placed == env.(offsets := placed.offsets, arrays := placed.arrays, natives := placed.natives)
    ensures placed.Addressed() && AllInRow(placed)
    ensures HeapFits(env.heap) ==>
              placed.Valid() && AllBehind(placed) && CopiesUpTo(placed, image, order, |order|)
    ensures HeapFits(env.heap) ==>
              forall o, k :: placed.Copied(o) && 0 <= k < |placed.contents[o]| ==>
                CellInImage(placed, image, order, o, k)
  {
    placed := PlaceObjects(env, target, order);
    var copier := new ImageCopier(placed);
    copier.CopyAndFixupObjects(order);
    image := copier.memory;
    if HeapFits(env.heap) {
      forall o, k | placed.Copied(o) && 0 <= k < |placed.contents[o]| ensures CellInImage(placed, image, order, o, k) {
        CellsInImage(placed, image, order, o, k);
      }
    }
  }

  ghost predicate ArraysRelocated(env: Env, target: Target, st: Layout) {
    && env.arrays == st.arrays
    && forall o, i :: o in Written(env.heap) && 0 <= i < |env.heap[o].natives| ==>
                        ArrayRelocated(env.heap, target, st, env.natives, ArrayId(o, i))
  }

  lemma ArraysBehind(env: Env, target: Target, st: Layout)
    requires ArraysRelocated(env, target, st)
    requires forall o :: o in Written(env.heap) ==>
                           o in env.offsets && InImage(env.heap, target, st, o, env.offsets[o])
    ensures AllBehind(env)
  {
    forall o, p, i | o in Written(env.heap) && p in Written(env.heap) && 0 <= i < |env.heap[p].natives|
      ensures ArrayBehind(env, o, ArrayId(p, i))
    {
      assert ArrayRelocated(env.heap, target, st, env.natives, ArrayId(p, i));
      assert InImage(env.heap, target, st, o, env.offsets[o]);
    }
  }

  lemma NativeFits(env: Env, target: Target, st: Layout, o: ObjId, i: nat)
    requires ArraysRelocated(env, target, st) && o in Written(env.heap) && i < |env.heap[o].natives|
    ensures ElementsInRow(env, ArrayId(o, i)) && env.ArrayAddressed(o, i)
  {
    assert ArrayRelocated(env.heap, target, st, env.natives, ArrayId(o, i));
    var a, h := env.heap[o].natives[i], env.arrays[ArrayId(o, i)];
    forall j | 0 <= j < a.count ensures env.ElementAddressed(h, j) {
      assert ElementRelocated(env.natives, h, a, j);
    }
  }

  lemma NativesFit(env: Env, target: Target, st: Layout)
    requires ArraysRelocated(env, target, st)
    ensures AllInRow(env) && forall o, i :: env.ArrayAddressed(o, i)
  {
    forall o, i | o in Written(env.heap) && 0 <= i < |env.heap[o].natives| ensures ElementsInRow(env, ArrayId(o, i)) {
      NativeFits(env, target, st, o, i);
    }
    forall o: ObjId, i: nat ensures env.ArrayAddressed(o, i) {
      if env.Copied(o) && i < |env.heap[o].natives| {
        NativeFits(env, target, st, o, i);
      }
    }
  }

  lemma OffsetsFit(env: Env, placed: Env, target: Target, st: Layout)
    requires env.Sound()
    requires placed == env.(offsets := placed.offsets, arrays := placed.arrays, natives := placed.natives)
    requires forall o :: o in Written(env.heap) ==> o in placed.offsets
    requires ArraysRelocated(placed, target, st)
    ensures placed.Addressed() && AllInRow(placed)
  {
    NativesFit(placed, target, st);
    forall o | o in placed.heap ensures placed.ContentsFit(o) && placed.heap[o].image < |placed.imageBegins| {
      assert env.ContentsFit(o);
    }
    forall o, k ensures placed.CellFits(o, k) {
      assert env.CellFits(o, k);
    }
    forall o, p ensures placed.StringsFit(o, p) {
      assert env.StringsFit(o, p);
    }
    forall o | placed.Copied(o) ensures o in placed.offsets {
      assert o in Written(env.heap);
    }
  }

  lemma PlacedFits(env: Env)
    requires env.Addressed()
    requires forall o, p :: o in env.offsets && p in env.offsets && o != p ==>
                              Apart(env.heap, o, p, env.offsets[o], env.offsets[p])
    ensures env.Valid()
  {
  }
}
