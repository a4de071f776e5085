/**
 * The address space of several images and oat files (compiler/image_writer.cc, dex2oat/dex2oat.cc):
 * the images come first, then the oat files in the same order, each after the one before it.
 */
module ImageTiling {
  import opened Align
  import opened ElfDynamic
  import opened ImageBins
  import opened ImageOffsets

  datatype ImageInfo = ImageInfo(begin: nat, size: nat, oatOffset: nat, oatFileBegin: nat, oatLoadedSize: nat,
                                 oatDataBegin: nat, oatSize: nat)

  /** The first n images start at `begin` and follow each other without gaps, on pages. */
  ghost predicate ImagesTile(infos: seq<ImageInfo>, begin: nat, n: nat)
    requires n <= |infos|
  {
    && (n > 0 ==> infos[0].begin == begin)
    && (forall i :: 0 <= i < n ==> infos[i].begin % PAGE_SIZE == 0 && infos[i].size % PAGE_SIZE == 0)
    && (forall i :: 1 <= i < n ==> infos[i].begin == infos[i - 1].begin + infos[i - 1].size)
  }

  /** Where the image after the last one starts. */
  function NextBegin(infos: seq<ImageInfo>, begin: nat): nat {
    if infos == [] then begin else infos[|infos| - 1].begin + infos[|infos| - 1].size
  }

  lemma TileExtended(infos: seq<ImageInfo>, begin: nat, info: ImageInfo)
    requires ImagesTile(infos, begin, |infos|) && begin % PAGE_SIZE == 0
    requires info.begin == NextBegin(infos, begin) && info.size % PAGE_SIZE == 0
    ensures ImagesTile(infos + [info], begin, |infos| + 1)
  {
    var n, all := |infos|, infos + [info];
    if n > 0 {
      AddMultiple(infos[n - 1].begin, infos[n - 1].size, PAGE_SIZE);
    }
    forall i | 1 <= i <= n ensures all[i].begin == all[i - 1].begin + all[i - 1].size {
      assert i < n ==> infos[i].begin == infos[i - 1].begin + infos[i - 1].size;
    }
  }

  function ImagesEnd(infos: seq<ImageInfo>): nat
    requires infos != []
  {
    infos[|infos| - 1].begin + infos[|infos| - 1].size
  }

  /** The same for the oat files, from the end of the images on. */
  ghost predicate OatFilesTile(infos: seq<ImageInfo>, n: nat)
    requires infos != [] && n <= |infos|
  {
    && (n > 0 ==> infos[0].oatFileBegin == ImagesEnd(infos))
    && (forall i :: 0 <= i < n ==> infos[i].oatFileBegin % PAGE_SIZE == 0 && infos[i].oatLoadedSize % PAGE_SIZE == 0)
    && (forall i :: 1 <= i < n ==> infos[i].oatFileBegin == infos[i - 1].oatFileBegin + infos[i - 1].oatLoadedSize)
  }

  /** The oat data of file i lies inside the loaded file. */
  predicate DataInFile(info: ImageInfo) {
    && info.oatFileBegin <= info.oatDataBegin
    && info.oatDataBegin + info.oatSize <= info.oatFileBegin + info.oatLoadedSize
  }

  /** The sizes of the tables written behind the bins of an image. */
  datatype Tables = Tables(internBytes: nat, classBytes: nat)

  /** CreateImageSections: the end of the last section, behind the bins and the two tables. */
  function SectionsEnd(target: Target, st: Layout, image: nat, tables: Tables): nat
    requires target.Valid()
  {
    var arraysEnd := BinStart(target, st, image, BIN_COUNT - 1) + st.Size(Region(image, BinAt(BIN_COUNT - 1)));
    RoundUp(RoundUp(arraysEnd, 8) + tables.internBytes, 8) + tables.classBytes
  }

  /** Everything that was allocated for an image is before the end of its sections. */
  lemma AllocationInImage(target: Target, st: Layout, a: Alloc, tables: Tables)
    requires target.Valid() && Inside(st, a)
    ensures Offset(target, st, a) + a.span <= SectionsEnd(target, st, a.region.image, tables)
  {
    var n := a.region.bin.Number();
    assert BinAt(n) == a.region.bin;
    if n < BIN_COUNT - 1 {
      BinsAscend(target, st, a.region.image, n, BIN_COUNT - 1);
    }
  }

  function ImageSize(target: Target, st: Layout, image: nat, tables: Tables): (size: nat)
    requires target.Valid()
    ensures SectionsEnd(target, st, image, tables) <= size < SectionsEnd(target, st, image, tables) + PAGE_SIZE
    ensures size % PAGE_SIZE == 0
  {
    RoundUp(SectionsEnd(target, st, image, tables), PAGE_SIZE)
  }

  /**
   * Room for an image: behind the last bin the interned strings, then the classes, both from a multiple
   * of 8 on, and not a page more.
   */
  predicate HasRoom(target: Target, st: Layout, image: nat, tables: Tables, info: ImageInfo)
    requires target.Valid()
  {
    var interns := RoundUp(BinStart(target, st, image, 11) + st.Size(Region(image, Bin.DexCacheArray)), 8);
    var classes := RoundUp(interns + tables.internBytes, 8);
    && interns % 8 == 0 && interns + tables.internBytes <= classes && classes % 8 == 0
    && classes + tables.classBytes <= info.size < classes + tables.classBytes + PAGE_SIZE
    && info.oatOffset == 0
  }

  lemma AllocationsInImages(target: Target, st: Layout, tables: seq<Tables>, infos: seq<ImageInfo>)
    requires target.Valid() && |tables| == |infos|
    requires forall i :: 0 <= i < |tables| ==> HasRoom(target, st, i, tables[i], infos[i])
    ensures forall a :: a in st.allocs && Inside(st, a) && a.region.image < |tables| ==>
                          Offset(target, st, a) + a.span <= infos[a.region.image].size
  {
    forall a | a in st.allocs && Inside(st, a) && a.region.image < |tables|
      ensures Offset(target, st, a) + a.span <= infos[a.region.image].size
    {
      AllocationInImage(target, st, a, tables[a.region.image]);
      assert HasRoom(target, st, a.region.image, tables[a.region.image], infos[a.region.image]);
    }
  }

  class AddressSpace {
    var infos: seq<ImageInfo>

    /**
     * The part of CalculateNewObjectOffsets that places the images: each gets the room of its
     * sections, and all that was allocated for it is in there.
     */
    constructor (globalBegin: nat, target: Target, st: Layout, tables: seq<Tables>)
      requires globalBegin % PAGE_SIZE == 0 && target.Valid()
      ensures |infos| == |tables| && ImagesTile(infos, globalBegin, |infos|)
      ensures forall i :: 0 <= i < |tables| ==> HasRoom(target, st, i, tables[i], infos[i])
      ensures forall a :: a in st.allocs && Inside(st, a) && a.region.image < |tables| ==>
                            Offset(target, st, a) + a.span <= infos[a.region.image].size
    {
      var images, offset, i := [], 0, 0;
      while i < |tables|
        invariant 0 <= i == |images| <= |tables| && ImagesTile(images, globalBegin, i)
        invariant globalBegin + offset == NextBegin(images, globalBegin)
        invariant forall j :: 0 <= j < i ==> HasRoom(target, st, j, tables[j], images[j])
      {
        var size := ImageSize(target, st, i, tables[i]);
        TileExtended(images, globalBegin, ImageInfo(globalBegin + offset, size, 0, 0, 0, 0, 0));
        images := images + [ImageInfo(globalBegin + offset, size, 0, 0, 0, 0, 0)];
        offset := offset + size;
        i := i + 1;
      }
      infos := images;
      AllocationsInImages(target, st, tables, images);
    }

    method UpdateOatFileLayout(i: nat, loadedSize: nat, dataOffset: nat, dataSize: nat)
      requires i < |infos|
      modifies this
      ensures |infos| == |old(infos)|
      ensures infos[i] == old(infos)[i].(oatFileBegin := ImagesEnd(old(infos)) + old(infos)[i].oatOffset,
                                         oatLoadedSize := loadedSize,
                                         oatDataBegin := ImagesEnd(old(infos)) + old(infos)[i].oatOffset + dataOffset,
                                         oatSize := dataSize)
      ensures i + 1 < |infos| ==>
                infos[i + 1] == old(infos)[i + 1].(oatOffset := old(infos)[i].oatOffset + loadedSize)
      ensures forall j :: 0 <= j < |infos| && j != i && j != i + 1 ==> infos[j] == old(infos)[j]
    {
      var begin := ImagesEnd(infos) + infos[i].oatOffset;
      infos := infos[i := infos[i].(oatFileBegin := begin, oatLoadedSize := loadedSize,
                                    oatDataBegin := begin + dataOffset, oatSize := dataSize)];
      if i + 1 != |infos| {
        infos := infos[i + 1 := infos[i + 1].(oatOffset := infos[i].oatOffset + loadedSize)];
      }
    }

    /** The loop of WriteOatFiles over all files, with the sizes each writer declares. */
    method WriteOatFiles(files: seq<Sizes>, ghost begin: nat)
      requires |files| == |infos| && ImagesTile(infos, begin, |infos|) && infos != [] && infos[0].oatOffset == 0
      modifies this
      ensures |infos| == |old(infos)| && ImagesTile(infos, begin, |infos|) && ImagesEnd(infos) == old(ImagesEnd(infos))
      ensures OatFilesTile(infos, |infos|)
      ensures forall i :: 0 <= i < |infos| ==> DataInFile(infos[i])
    {
      var i := 0;
      while i < |files|
        invariant 0 <= i <= |files| == |infos|
        invariant SameImages(old(infos), infos) && FilesPlaced(infos, i)
      {
        ghost var before := infos;
        var loadedSize, dataOffset, dataSize := DeclaredLayout(files[i]);
        UpdateOatFileLayout(i, loadedSize, dataOffset, dataSize);
        FilesPlacedOn(before, infos, i, loadedSize, dataOffset, dataSize);
        i := i + 1;
      }
      TileKept(old(infos), infos, begin);
    }
  }

  /** What the writers of one file declare: the loaded size, and where the oat data is in it. */
  method DeclaredLayout(z: Sizes) returns (loadedSize: nat, dataOffset: nat, dataSize: nat)
    ensures loadedSize == Predicted(z).loadedSize && dataOffset == Predicted(z).rodata && dataSize == z.rodata + z.text
    ensures loadedSize % PAGE_SIZE == 0 && dataOffset + dataSize <= loadedSize
  {
    var p := Predicted(z);
    loadedSize, dataOffset, dataSize := p.loadedSize, p.rodata, z.rodata + z.text;
  }

  predicate SameImages(a: seq<ImageInfo>, b: seq<ImageInfo>) {
    |a| == |b| && forall i :: 0 <= i < |a| ==> a[i].begin == b[i].begin && a[i].size == b[i].size
  }

  lemma TileKept(a: seq<ImageInfo>, b: seq<ImageInfo>, begin: nat)
    requires SameImages(a, b) && ImagesTile(a, begin, |a|)
    ensures ImagesTile(b, begin, |b|)
  {
    forall i | 1 <= i < |b| ensures b[i].begin == b[i - 1].begin + b[i - 1].size {
      assert a[i].begin == a[i - 1].begin + a[i - 1].size;
    }
  }

  /** The first n oat files are placed, and it is known where the next one starts. */
  ghost predicate FilesPlaced(infos: seq<ImageInfo>, n: nat) {
    && infos != [] && n <= |infos| && OatFilesTile(infos, n) && ImagesEnd(infos) % PAGE_SIZE == 0
    && (n < |infos| ==> NextStart(infos, n))
    && (forall j :: 0 <= j < n ==> DataInFile(infos[j]))
  }

  predicate NextStart(infos: seq<ImageInfo>, n: nat)
    requires n < |infos|
  {
    ImagesEnd(infos) + infos[n].oatOffset ==
      if n == 0 then ImagesEnd(infos) else infos[n - 1].oatFileBegin + infos[n - 1].oatLoadedSize
  }

  lemma FilesPlacedOn(a: seq<ImageInfo>, b: seq<ImageInfo>, i: nat, loadedSize: nat, dataOffset: nat, dataSize: nat)
    requires FilesPlaced(a, i) && i < |a| == |b|
    requires loadedSize % PAGE_SIZE == 0 && dataOffset + dataSize <= loadedSize
    requires var start := ImagesEnd(a) + a[i].oatOffset;
             b[i] == a[i].(oatFileBegin := start, oatLoadedSize := loadedSize, oatDataBegin := start + dataOffset,
                           oatSize := dataSize)
    requires i + 1 < |b| ==> b[i + 1] == a[i + 1].(oatOffset := a[i].oatOffset + loadedSize)
    requires forall j :: 0 <= j < |b| && j != i && j != i + 1 ==> b[j] == a[j]
    ensures SameImages(a, b) && FilesPlaced(b, i + 1)
  {
    assert ImagesEnd(a) == ImagesEnd(b);
    assert b[i].oatFileBegin % PAGE_SIZE == 0 by {
      if i > 0 {
        AddMultiple(a[i - 1].oatFileBegin, a[i - 1].oatLoadedSize, PAGE_SIZE);
      }
    }
    forall j | 1 <= j <= i ensures b[j].oatFileBegin == b[j - 1].oatFileBegin + b[j - 1].oatLoadedSize {
      assert j < i ==> a[j].oatFileBegin == a[j - 1].oatFileBegin + a[j - 1].oatLoadedSize;
    }
  }

  lemma {:induction false} ImagesAscend(infos: seq<ImageInfo>, begin: nat, i: nat, j: nat)
    requires ImagesTile(infos, begin, |infos|) && i < j < |infos|
    ensures infos[i].begin + infos[i].size <= infos[j].begin
  {
    assert infos[j].begin == infos[j - 1].begin + infos[j - 1].size;
    if i + 1 < j {
      ImagesAscend(infos, begin, i, j - 1);
    }
  }

  lemma {:induction false} OatFilesAscend(infos: seq<ImageInfo>, i: nat, j: nat)
    requires infos != [] && OatFilesTile(infos, |infos|) && i < j < |infos|
    ensures infos[i].oatFileBegin + infos[i].oatLoadedSize <= infos[j].oatFileBegin
  {
    assert infos[j].oatFileBegin == infos[j - 1].oatFileBegin + infos[j - 1].oatLoadedSize;
    if i + 1 < j {
      OatFilesAscend(infos, i, j - 1);
    }
  }

  /** Every image lies before every oat file. */
  lemma ImagesBeforeOatFiles(infos: seq<ImageInfo>, begin: nat, i: nat, j: nat)
    requires infos != [] && ImagesTile(infos, begin, |infos|) && OatFilesTile(infos, |infos|)
    requires i < |infos| && j < |infos|
    ensures infos[i].begin + infos[i].size <= infos[j].oatFileBegin
  {
    if i < |infos| - 1 {
      ImagesAscend(infos, begin, i, |infos| - 1);
    }
    if j > 0 {
      OatFilesAscend(infos, 0, j);
    }
  }
}
