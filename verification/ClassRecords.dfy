/**
 * The class records of an oat file (OatClass in compiler/oat_writer.cc) and how the runtime reads
 * them (OatFile::OatClass in runtime/oat_file.cc): which methods of a class are compiled, and one
 * code offset for each of those.
 */
module ClassRecords {
  import opened Align
  import opened OatTypes
  import opened Words
  import opened OatVisit

  datatype ClassType = AllCompiled | SomeCompiled | NoneCompiled {
    function Code(): nat {
      if AllCompiled? then 0 else if SomeCompiled? then 1 else 2
    }
  }

  function TypeOf(methods: seq<bool>): ClassType {
    var count := Rank(methods, |methods|);
    if count == 0 then NoneCompiled else if count == |methods| then AllCompiled else SomeCompiled
  }

  /** A bit vector of whole 32-bit words, in bytes. */
  function BitmapSize(methods: seq<bool>): nat {
    RoundUp(|methods|, 32) / 32 * 4
  }

  /** The size of the bitmap, if there is one, fits in its field. */
  predicate Storable(methods: seq<bool>) {
    TypeOf(methods).SomeCompiled? ==> BitmapSize(methods) < TWO32
  }

  /** Status, type and bitmap: what comes before the code offsets. */
  function FixedSize(methods: seq<bool>): nat {
    4 + (if TypeOf(methods).SomeCompiled? then 4 + BitmapSize(methods) else 0)
  }

  function SizeOf(methods: seq<bool>): nat {
    FixedSize(methods) + 4 * Rank(methods, |methods|)
  }

  /** What the writer knows about a class; `entries` are offsets in the record, 0 for none. */
  datatype Record = Record(offset: nat, kind: ClassType, bits: seq<bool>, entries: seq<nat>)

  function EntryFor(first: nat, methods: seq<bool>, i: nat): nat
    requires i < |methods|
  {
    if methods[i] then first + 4 * Rank(methods, i) else 0
  }

  ghost predicate EntriesFor(entries: seq<nat>, first: nat, methods: seq<bool>) {
    |entries| <= |methods| && forall i :: 0 <= i < |entries| ==> entries[i] == EntryFor(first, methods, i)
  }

  ghost predicate RecordOf(r: Record, methods: seq<bool>) {
    && r.kind == TypeOf(methods) && |r.entries| == |methods|
    && EntriesFor(r.entries, FixedSize(methods), methods)
    && (r.kind.SomeCompiled? ==> r.bits == methods)
  }

  /** The loop over the methods: bits and entries for them, from `first` on. */
  method InitEntries(methods: seq<bool>, first: nat) returns (bits: seq<bool>, entries: seq<nat>)
    ensures |entries| == |methods| && EntriesFor(entries, first, methods) && bits == methods
  {
    bits, entries := [], [];
    var next, i := first, 0;
    while i < |methods|
      invariant 0 <= i == |entries| <= |methods| && next == first + 4 * Rank(methods, i)
      invariant EntriesFor(entries, first, methods) && bits == methods[..i]
    {
      if !methods[i] {
        entries := entries + [0];
        bits := bits + [false];
      } else {
        entries := entries + [next];
        next := next + 4;
        bits := bits + [true];
      }
      i := i + 1;
    }
  }

  /** The constructor of OatClass; `count` is the number of compiled methods. */
  method InitOatClass(offset: nat, methods: seq<bool>, count: nat) returns (r: Record)
    requires count == Rank(methods, |methods|)
    ensures RecordOf(r, methods) && r.offset == offset
  {
    var kind := if count == 0 then NoneCompiled else if count == |methods| then AllCompiled else SomeCompiled;
    var first := 4;
    if kind.SomeCompiled? {
      first := first + 4 + BitmapSize(methods);
    }
    var bits, entries := InitEntries(methods, first);
    r := Record(offset, kind, if kind.SomeCompiled? then bits else [], entries);
  }

  ghost predicate RecordAt(r: Record, offset: nat, classes: seq<seq<bool>>, c: nat)
    requires c < |classes|
  {
    RecordOf(r, classes[c]) && r.offset == ClassOffset(offset, classes, c)
  }

  /** InitOatClasses: the records follow each other, so the offset of a class is that of its record. */
  method InitOatClasses(offset: nat, classes: seq<seq<bool>>, counts: seq<nat>) returns (records: seq<Record>, end: nat)
    requires |counts| == |classes|
    requires forall c :: 0 <= c < |classes| ==> counts[c] == Rank(classes[c], |classes[c]|)
    ensures |records| == |classes|
    ensures forall c :: 0 <= c < |classes| ==> RecordAt(records[c], offset, classes, c)
    ensures end == ClassOffset(offset, classes, |classes|)
  {
    records, end := [], offset;
    var c := 0;
    while c < |classes|
      invariant 0 <= c == |records| <= |classes| && end == ClassOffset(offset, classes, c)
      invariant forall d :: 0 <= d < c ==> RecordAt(records[d], offset, classes, d)
    {
      var r := InitOatClass(end, classes[c], counts[c]);
      assert RecordAt(r, offset, classes, c);
      records := records + [r];
      end := end + SizeOf(classes[c]);
      c := c + 1;
    }
  }

  function ClassOffset(offset: nat, classes: seq<seq<bool>>, c: nat): nat
    requires c <= |classes|
  {
    if c == 0 then offset else ClassOffset(offset, classes, c - 1) + SizeOf(classes[c - 1])
  }

  function Le16(w: nat): (b: seq<byte>)
    requires w < 65536
    ensures |b| == 2
  {
    [w % 256, w / 256]
  }

  function Bit(bits: seq<bool>, i: nat): nat {
    if i < |bits| && bits[i] then 1 else 0
  }

  function PowerOf2(k: nat): (p: nat)
    ensures p > 0
  {
    if k == 0 then 1 else 2 * PowerOf2(k - 1)
  }

  /** The number with the given bits, the first one lowest. */
  function FromBits(bits: seq<bool>, i: nat, count: nat): (x: nat)
    ensures x < PowerOf2(count)
    decreases count
  {
    if count == 0 then 0 else Bit(bits, i) + 2 * FromBits(bits, i + 1, count - 1)
  }

  /** Bits 8n to 8n + 7. */
  function ByteOf(bits: seq<bool>, n: nat): byte {
    assert PowerOf2(8) == 256 by { assert PowerOf2(4) == 16; }
    FromBits(bits, 8 * n, 8)
  }

  /** x >> k. */
  function ShiftRight(x: nat, k: nat): nat
    decreases k
  {
    if k == 0 then x else ShiftRight(x / 2, k - 1)
  }

  function BitmapBytes(bits: seq<bool>, n: nat): (b: seq<byte>)
    ensures |b| == n
  {
    if n == 0 then [] else BitmapBytes(bits, n - 1) + [ByteOf(bits, n - 1)]
  }

  /** BitVector::IsBitSet on the stored words. */
  predicate IsBitSet(b: seq<byte>, at: nat, i: nat)
    requires at + i / 8 < |b|
  {
    ShiftRight(b[at + i / 8] as int, i % 8) % 2 == 1
  }

  lemma {:induction false} BitmapAt(bits: seq<bool>, n: nat, j: nat)
    requires j < n
    ensures BitmapBytes(bits, n)[j] == ByteOf(bits, j)
  {
    if j < n - 1 {
      BitmapAt(bits, n - 1, j);
    }
  }

  lemma {:induction false} BitOf(bits: seq<bool>, i: nat, count: nat, k: nat)
    requires k < count
    ensures ShiftRight(FromBits(bits, i, count), k) % 2 == Bit(bits, i + k)
    decreases count
  {
    if k > 0 {
      BitOf(bits, i + 1, count - 1, k - 1);
    }
  }

  /** The bitmap is read back bit by bit. */
  lemma BitRead(bits: seq<bool>, n: nat, i: nat)
    requires i / 8 < n
    ensures IsBitSet(BitmapBytes(bits, n), 0, i) <==> Bit(bits, i) == 1
  {
    BitmapAt(bits, n, i / 8);
    BitOf(bits, 8 * (i / 8), 8, i % 8);
  }

  predicate AllWords(codes: seq<nat>) {
    forall i :: 0 <= i < |codes| ==> codes[i] < TWO32
  }

  /** The first n code offsets of a class. */
  function Codes(codes: seq<nat>, n: nat): (b: seq<byte>)
    requires n <= |codes| && AllWords(codes)
    ensures |b| == 4 * n
  {
    if n == 0 then [] else Codes(codes, n - 1) + Le32(codes[n - 1])
  }

  /** The file holds b at a place. */
  predicate At(file: seq<byte>, at: nat, b: seq<byte>) {
    at + |b| <= |file| && file[at..at + |b|] == b
  }

  lemma AtOn(file: seq<byte>, more: seq<byte>, at: nat, b: seq<byte>)
    requires At(file, at, b)
    ensures At(file + more, at, b)
  {
    assert (file + more)[at..at + |b|] == file[at..at + |b|];
  }

  function Read16(b: seq<byte>, at: nat): nat
    requires at + 2 <= |b|
  {
    (b[at] as int) + 256 * (b[at + 1] as int)
  }

  lemma ReadConcat16(a: seq<byte>, b: seq<byte>, at: nat)
    requires at + 2 <= |a|
    ensures Read16(a + b, at) == Read16(a, at)
  {
  }

  lemma ReadConcat(a: seq<byte>, b: seq<byte>, at: nat)
    requires at + 4 <= |a|
    ensures Read32(a + b, at) == Read32(a, at)
  {
  }

  lemma AtRead(file: seq<byte>, at: nat, w: nat)
    requires w < TWO32 && At(file, at, Le32(w))
    ensures Read32(file, at) == w
  {
    ReadLe32(w);
    var b := file[at..at + 4];
    assert file[at] == b[0] && file[at + 1] == b[1] && file[at + 2] == b[2] && file[at + 3] == b[3];
  }

  lemma AtRead16(file: seq<byte>, at: nat, w: nat)
    requires w < 65536 && At(file, at, Le16(w))
    ensures Read16(file, at) == w
  {
    var b := file[at..at + 2];
    assert file[at] == b[0] && file[at + 1] == b[1];
  }

  /** The parts of a record, as OatClass::Write puts them into the file. */
  ghost predicate Written(file: seq<byte>, at: nat, status: nat, methods: seq<bool>, codes: seq<nat>)
    requires AllWords(codes)
  {
    && at + FixedSize(methods) <= |file|
    && Read16(file, at) == status && Read16(file, at + 2) == TypeOf(methods).Code()
    && (TypeOf(methods).SomeCompiled? ==>
          Read32(file, at + 4) == BitmapSize(methods) && At(file, at + 8, BitmapBytes(methods, BitmapSize(methods))))
    && At(file, at + FixedSize(methods), Codes(codes, |codes|))
  }

  /** What is written later does not change a record. */
  lemma WrittenOn(file: seq<byte>, more: seq<byte>, at: nat, status: nat, methods: seq<bool>, codes: seq<nat>)
    requires AllWords(codes) && Written(file, at, status, methods, codes)
    ensures Written(file + more, at, status, methods, codes)
  {
    ReadConcat16(file, more, at);
    ReadConcat16(file, more, at + 2);
    if TypeOf(methods).SomeCompiled? {
      ReadConcat(file, more, at + 4);
      AtOn(file, more, at + 8, BitmapBytes(methods, BitmapSize(methods)));
    }
    AtOn(file, more, at + FixedSize(methods), Codes(codes, |codes|));
  }

  lemma AtPrefix(a: seq<byte>, b: seq<byte>, at: nat, c: seq<byte>)
    requires a <= b && At(a, at, c)
    ensures At(b, at, c)
  {
    AtOn(a, b[|a|..], at, c);
    assert b == a + b[|a|..];
  }

  /** Appends to a stream. */
  method WriteFully(out: seq<byte>, b: seq<byte>) returns (out': seq<byte>)
    ensures out <= out' && |out'| == |out| + |b| && At(out', |out|, b)
  {
    out' := out + b;
  }

  /** size_oat_class_status_ and its three neighbours. */
  datatype ClassCounters = ClassCounters(status: nat, kind: nat, bitmaps: nat, offsets: nat) {
    function Total(): nat {
      status + kind + bitmaps + offsets
    }
  }

  /** The part of a record between the type and the code offsets. */
  ghost predicate BitmapWritten(file: seq<byte>, at: nat, methods: seq<bool>) {
    TypeOf(methods).SomeCompiled? ==>
      && At(file, at, Le32(Word(BitmapSize(methods))))
      && At(file, at + 4, BitmapBytes(methods, BitmapSize(methods)))
  }

  method WriteBitmap(out: seq<byte>, r: Record, ghost methods: seq<bool>) returns (out': seq<byte>)
    requires RecordOf(r, methods)
    ensures out <= out' && |out'| == |out| + FixedSize(methods) - 4 && BitmapWritten(out', |out|, methods)
  {
    out' := out;
    var bitmapSize := if r.kind.SomeCompiled? then BitmapSize(r.bits) else 0;
    if bitmapSize != 0 {
      ghost var size := Le32(Word(bitmapSize));
      out' := WriteFully(out', Le32(Word(bitmapSize)));
      ghost var before := out';
      out' := WriteFully(out', BitmapBytes(r.bits, bitmapSize));
      AtPrefix(before, out', |out|, size);
    } else if r.kind.SomeCompiled? {
      SomeHasBitmap(methods);
    }
  }

  lemma PartsWritten(file: seq<byte>, at: nat, status: nat, methods: seq<bool>, codes: seq<nat>)
    requires status < 65536 && AllWords(codes) && Storable(methods)
    requires At(file, at, Le16(status)) && At(file, at + 2, Le16(TypeOf(methods).Code()))
    requires BitmapWritten(file, at + 4, methods) && At(file, at + FixedSize(methods), Codes(codes, |codes|))
    ensures Written(file, at, status, methods, codes)
  {
    AtRead16(file, at, status);
    AtRead16(file, at + 2, TypeOf(methods).Code());
    if TypeOf(methods).SomeCompiled? {
      WordOf(BitmapSize(methods), BitmapSize(methods), 0);
      AtRead(file, at + 4, BitmapSize(methods));
    }
  }

  lemma BitmapWrittenOn(a: seq<byte>, b: seq<byte>, at: nat, methods: seq<bool>)
    requires a <= b && BitmapWritten(a, at, methods)
    ensures BitmapWritten(b, at, methods)
  {
    if TypeOf(methods).SomeCompiled? {
      AtPrefix(a, b, at, Le32(Word(BitmapSize(methods))));
      AtPrefix(a, b, at + 4, BitmapBytes(methods, BitmapSize(methods)));
    }
  }

  /** Status and type, two bytes each. */
  method WriteHead(out: seq<byte>, status: nat, kind: ClassType) returns (out': seq<byte>)
    requires status < 65536
    ensures out <= out' && |out'| == |out| + 4
    ensures At(out', |out|, Le16(status)) && At(out', |out| + 2, Le16(kind.Code()))
  {
    out' := WriteFully(out, Le16(status));
    ghost var before := out';
    out' := WriteFully(out', Le16(kind.Code()));
    AtPrefix(before, out', |out|, Le16(status));
  }

  lemma HeadWrittenOn(a: seq<byte>, b: seq<byte>, file: seq<byte>, at: nat, status: nat, methods: seq<bool>,
                      codes: seq<nat>)
    requires status < 65536 && AllWords(codes) && Storable(methods) && a <= b <= file
    requires At(a, at, Le16(status)) && At(a, at + 2, Le16(TypeOf(methods).Code()))
    requires BitmapWritten(b, at + 4, methods) && At(file, at + FixedSize(methods), Codes(codes, |codes|))
    ensures Written(file, at, status, methods, codes)
  {
    AtPrefix(a, file, at, Le16(status));
    AtPrefix(a, file, at + 2, Le16(TypeOf(methods).Code()));
    BitmapWrittenOn(b, file, at + 4, methods);
    PartsWritten(file, at, status, methods, codes);
  }

  /** OatClass::Write: the record, which takes exactly SizeOf bytes, all of them counted. */
  method WriteOatClass(out: seq<byte>, status: nat, r: Record, codes: seq<nat>, counters: ClassCounters,
                       ghost methods: seq<bool>)
    returns (out': seq<byte>, counters': ClassCounters)
    requires status < 65536 && AllWords(codes)
    requires RecordOf(r, methods) && |codes| == Rank(methods, |methods|)
    ensures out <= out' && |out'| == |out| + SizeOf(methods)
    ensures counters' == ClassCounters(counters.status + 2, counters.kind + 2,
                                       counters.bitmaps + FixedSize(methods) - 4, counters.offsets + 4 * |codes|)
    ensures Storable(methods) ==> Written(out', |out|, status, methods, codes)
  {
    var head := WriteHead(out, status, r.kind);
    var front := WriteBitmap(head, r, methods);
    out' := WriteFully(front, Codes(codes, |codes|));
    counters' := ClassCounters(counters.status + 2, counters.kind + 2, counters.bitmaps + (|front| - |head|),
                               counters.offsets + 4 * |codes|);
    if Storable(methods) {
      HeadWrittenOn(head, front, out', |out|, status, methods, codes);
    }
  }

  /** A class with some of its methods compiled has a bitmap. */
  lemma SomeHasBitmap(methods: seq<bool>)
    requires TypeOf(methods).SomeCompiled?
    ensures BitmapSize(methods) > 0
  {
    assert |methods| > 0 && RoundUp(|methods|, 32) >= 32;
  }

  /** The record of class c is in the file, at the offset the layout gave the class. */
  ghost predicate WrittenAt(file: seq<byte>, offset: nat, statuses: seq<nat>, classes: seq<seq<bool>>,
                            codes: seq<seq<nat>>, c: nat)
    requires c < |classes| && c < |statuses| && c < |codes| && AllWords(codes[c])
  {
    Storable(classes[c]) ==>
      Written(file, ClassOffset(offset, classes, c), statuses[c], classes[c], codes[c])
  }

  /** The compiled methods of the first n classes. */
  function CompiledIn(classes: seq<seq<bool>>, n: nat): nat
    requires n <= |classes|
  {
    if n == 0 then 0 else CompiledIn(classes, n - 1) + Rank(classes[n - 1], |classes[n - 1]|)
  }

  /** WriteClasses: all records, each where its class offset says. */
  method WriteClasses(out: seq<byte>, statuses: seq<nat>, records: seq<Record>, codes: seq<seq<nat>>,
                      ghost classes: seq<seq<bool>>)
    returns (out': seq<byte>, counters: ClassCounters)
    requires |statuses| == |records| == |codes| == |classes|
    requires forall c :: 0 <= c < |classes| ==> statuses[c] < 65536 && AllWords(codes[c])
    requires forall c :: 0 <= c < |classes| ==>
               RecordOf(records[c], classes[c]) && |codes[c]| == Rank(classes[c], |classes[c]|)
    ensures out <= out' && |out'| == ClassOffset(|out|, classes, |classes|)
    ensures counters.Total() == |out'| - |out|
    ensures counters.status == 2 * |classes| && counters.kind == 2 * |classes|
    ensures counters.offsets == 4 * CompiledIn(classes, |classes|)
    ensures forall c :: 0 <= c < |classes| ==> WrittenAt(out', |out|, statuses, classes, codes, c)
  {
    out', counters := out, ClassCounters(0, 0, 0, 0);
    var c := 0;
    while c < |records|
      invariant 0 <= c <= |classes| && out <= out' && |out'| == ClassOffset(|out|, classes, c)
      invariant counters.Total() == |out'| - |out|
      invariant counters.status == 2 * c && counters.kind == 2 * c && counters.offsets == 4 * CompiledIn(classes, c)
      invariant forall d :: 0 <= d < c ==> WrittenAt(out', |out|, statuses, classes, codes, d)
    {
      ghost var before := out';
      out', counters := WriteOatClass(out', statuses[c], records[c], codes[c], counters, classes[c]);
      forall d | 0 <= d < c ensures WrittenAt(out', |out|, statuses, classes, codes, d) {
        WrittenAtOn(before, out', |out|, statuses, classes, codes, d);
      }
      c := c + 1;
    }
  }

  lemma WrittenAtOn(a: seq<byte>, b: seq<byte>, offset: nat, statuses: seq<nat>, classes: seq<seq<bool>>,
                    codes: seq<seq<nat>>, c: nat)
    requires a <= b && c < |classes| && c < |statuses| && c < |codes| && AllWords(codes[c])
    requires WrittenAt(a, offset, statuses, classes, codes, c)
    ensures WrittenAt(b, offset, statuses, classes, codes, c)
  {
    if Storable(classes[c]) {
      WrittenOn(a, b[|a|..], ClassOffset(offset, classes, c), statuses[c], classes[c], codes[c]);
      assert b == a + b[|a|..];
    }
  }

  /** BitVector::NumSetBits: the set bits among the first n. */
  function NumSetBits(b: seq<byte>, at: nat, n: nat): nat
    requires at + n / 8 < |b|
  {
    if n == 0 then 0 else NumSetBits(b, at, n - 1) + (if IsBitSet(b, at, n - 1) then 1 else 0)
  }

  /** GetOatClass and GetOatMethodOffsets: where the code offset of method i is, if it has one. */
  function FindEntry(file: seq<byte>, at: nat, i: nat): Option<nat>
    requires at + 4 <= |file|
    requires Read16(file, at + 2) == 1 ==> at + 8 + i / 8 < |file|
  {
    var kind := Read16(file, at + 2);
    if kind == 2 then None
    else if kind == 0 then Some(at + 4 + 4 * i)
    else if kind != 1 then None
    else
      var bitmapSize := Read32(file, at + 4);
      if !IsBitSet(file, at + 8, i) then None
      else Some(at + 8 + bitmapSize + 4 * NumSetBits(file, at + 8, i))
  }

  lemma ReadEnd(a: seq<byte>, w: nat)
    requires w < TWO32
    ensures Read32(a + Le32(w), |a|) == w
  {
    ReadLe32(w);
    var b, n := a + Le32(w), |a|;
    assert b[n] == Le32(w)[0] && b[n + 1] == Le32(w)[1] && b[n + 2] == Le32(w)[2] && b[n + 3] == Le32(w)[3];
  }

  lemma {:induction false} CodeAt(codes: seq<nat>, n: nat, j: nat)
    requires j < n <= |codes| && AllWords(codes)
    ensures Read32(Codes(codes, n), 4 * j) == codes[j]
  {
    if j < n - 1 {
      CodeAt(codes, n - 1, j);
      ReadConcat(Codes(codes, n - 1), Le32(codes[n - 1]), 4 * j);
    } else {
      ReadEnd(Codes(codes, n - 1), codes[j]);
    }
  }

  lemma WordInside(file: seq<byte>, at: nat, b: seq<byte>, from: nat)
    requires At(file, at, b) && from + 4 <= |b|
    ensures at + from + 4 <= |file| && Read32(file, at + from) == Read32(b, from)
  {
    var whole, n := file[at..at + |b|], at + from;
    assert file[n] == whole[from] && file[n + 1] == whole[from + 1];
    assert file[n + 2] == whole[from + 2] && file[n + 3] == whole[from + 3];
  }

  lemma CodesRead(file: seq<byte>, at: nat, codes: seq<nat>, j: nat)
    requires AllWords(codes) && j < |codes| && At(file, at, Codes(codes, |codes|))
    ensures at + 4 * j + 4 <= |file| && Read32(file, at + 4 * j) == codes[j]
  {
    CodeAt(codes, |codes|, j);
    WordInside(file, at, Codes(codes, |codes|), 4 * j);
  }

  lemma BitInFile(file: seq<byte>, at: nat, bits: seq<bool>, n: nat, i: nat)
    requires At(file, at, BitmapBytes(bits, n)) && i < 8 * n
    ensures IsBitSet(file, at, i) <==> Bit(bits, i) == 1
  {
    BitRead(bits, n, i);
    assert file[at + i / 8] == file[at..at + n][i / 8];
  }

  lemma {:induction false} BitsInFile(file: seq<byte>, at: nat, methods: seq<bool>, n: nat, i: nat)
    requires At(file, at, BitmapBytes(methods, n)) && |methods| <= 8 * n && i < |methods|
    ensures NumSetBits(file, at, i) == Rank(methods, i)
  {
    if i > 0 {
      BitsInFile(file, at, methods, n, i - 1);
      BitInFile(file, at, methods, n, i - 1);
    }
  }

  lemma {:induction false} RankOfAll(methods: seq<bool>, k: nat)
    requires k <= |methods| && Rank(methods, |methods|) == |methods|
    ensures Rank(methods, k) == k
    decreases |methods| - k
  {
    if k < |methods| {
      RankOfAll(methods, k + 1);
    }
  }

  lemma {:induction false} RankOfNone(methods: seq<bool>, k: nat)
    requires k <= |methods| && Rank(methods, |methods|) == 0
    ensures Rank(methods, k) == 0
    decreases |methods| - k
  {
    if k < |methods| {
      RankOfNone(methods, k + 1);
    }
  }

  lemma BitmapLargeEnough(methods: seq<bool>, i: nat)
    requires i < |methods|
    ensures i < 8 * BitmapSize(methods) && |methods| <= 8 * BitmapSize(methods)
  {
    var r := RoundUp(|methods|, 32);
    assert r == r / 32 * 32;
  }

  lemma FindSome(file: seq<byte>, at: nat, i: nat, n: nat, compiled: bool, rank: nat)
    requires at + 8 + i / 8 < |file| && Read16(file, at + 2) == 1 && Read32(file, at + 4) == n
    requires (IsBitSet(file, at + 8, i) <==> compiled) && NumSetBits(file, at + 8, i) == rank
    ensures FindEntry(file, at, i) == if compiled then Some(at + 8 + n + 4 * rank) else None
  {
  }

  lemma BitsThere(file: seq<byte>, at: nat, methods: seq<bool>, n: nat, i: nat)
    requires i < |methods| <= 8 * n && At(file, at, BitmapBytes(methods, n))
    ensures at + i / 8 < |file| && (IsBitSet(file, at, i) <==> methods[i])
    ensures NumSetBits(file, at, i) == Rank(methods, i)
  {
    BitInFile(file, at, methods, n, i);
    BitsInFile(file, at, methods, n, i);
  }

  lemma NotSomeFound(file: seq<byte>, at: nat, methods: seq<bool>, i: nat)
    requires i < |methods| && !TypeOf(methods).SomeCompiled? && at + 4 <= |file|
    requires Read16(file, at + 2) == TypeOf(methods).Code()
    ensures FindEntry(file, at, i) == if methods[i] then Some(at + EntryFor(FixedSize(methods), methods, i)) else None
  {
    if TypeOf(methods).AllCompiled? {
      RankOfAll(methods, i);
      RankOfAll(methods, i + 1);
    } else {
      RankOfNone(methods, i + 1);
    }
  }

  /**
   * What the runtime finds for method i of a class in the written file: nothing if it is not
   * compiled, else the entry the writer recorded.
   */
  lemma EntryFound(file: seq<byte>, at: nat, status: nat, methods: seq<bool>, codes: seq<nat>, i: nat)
    requires AllWords(codes) && i < |methods|
    requires Written(file, at, status, methods, codes)
    ensures Read16(file, at + 2) == 1 ==> at + 8 + i / 8 < |file|
    ensures FindEntry(file, at, i) == if methods[i] then Some(at + EntryFor(FixedSize(methods), methods, i)) else None
  {
    if TypeOf(methods).SomeCompiled? {
      BitmapLargeEnough(methods, i);
      BitsThere(file, at + 8, methods, BitmapSize(methods), i);
      FindSome(file, at, i, BitmapSize(methods), methods[i], Rank(methods, i));
    } else {
      NotSomeFound(file, at, methods, i);
    }
  }

  /** The entry of a compiled method holds the code offset at its rank. */
  lemma EntryHoldsCode(file: seq<byte>, at: nat, status: nat, methods: seq<bool>, codes: seq<nat>, i: nat)
    requires AllWords(codes) && i < |methods| && methods[i]
    requires |codes| == Rank(methods, |methods|) && Written(file, at, status, methods, codes)
    ensures Rank(methods, i) < |codes|
    ensures var entry := at + EntryFor(FixedSize(methods), methods, i);
            entry + 4 <= |file| && Read32(file, entry) == codes[Rank(methods, i)]
  {
    CodeInEntry(file, at, FixedSize(methods), methods, codes, i);
  }

  lemma CodeInEntry(file: seq<byte>, at: nat, first: nat, methods: seq<bool>, codes: seq<nat>, i: nat)
    requires AllWords(codes) && i < |methods| && methods[i] && |codes| == Rank(methods, |methods|)
    requires At(file, at + first, Codes(codes, |codes|))
    ensures Rank(methods, i) < |codes|
    ensures var entry := at + EntryFor(first, methods, i);
            entry + 4 <= |file| && Read32(file, entry) == codes[Rank(methods, i)]
  {
    RankGrows(methods, i, |methods|);
    CodesRead(file, at + first, codes, Rank(methods, i));
  }

  lemma {:induction false} ClassOffsetsAscend(offset: nat, classes: seq<seq<bool>>, c: nat, d: nat)
    requires c <= d <= |classes|
    ensures ClassOffset(offset, classes, c) <= ClassOffset(offset, classes, d)
  {
    if c < d {
      ClassOffsetsAscend(offset, classes, c, d - 1);
    }
  }

  /** Classes whose records end below 4 GiB have bitmaps whose size can be stored. */
  lemma StorableBelow(offset: nat, classes: seq<seq<bool>>, c: nat)
    requires c < |classes| && ClassOffset(offset, classes, |classes|) < TWO32
    ensures Storable(classes[c]) && ClassOffset(offset, classes, c) < TWO32
  {
    ClassOffsetsAscend(offset, classes, c + 1, |classes|);
  }
}
