/**
 * The dynamic symbols of an oat file (compiler/elf_builder.h, PrepareDynamicSection): how the
 * runtime finds the oat data in a file it has only loaded. Chapters 4 and 5 of the System V gABI.
 */
module ElfSymbols {
  import opened Align
  import opened ElfSections
  import opened ElfDynamic

  /** An entry of .dynsym; `name` is an offset in .dynstr. */
  datatype Symbol = Symbol(name: nat, index: nat, value: int, size: nat)

  datatype Wanted = Wanted(name: string, index: nat, value: int, size: nat)

  /** The section index used for the symbols of .bss. */
  function BssIndex(z: Sizes): nat {
    2 + (if z.text != 0 then 1 else 0)
  }

  function DataSymbols(z: Sizes, p: Addresses): seq<Wanted> {
    [Wanted("oatdata", 1, p.rodata, z.rodata)]
  }

  function CodeSymbols(z: Sizes, p: Addresses): seq<Wanted> {
    if z.text != 0 then [Wanted("oatexec", 2, p.text, z.text), Wanted("oatlastword", 2, p.text + z.text - 4, 4)]
    else if z.rodata != 0 then [Wanted("oatlastword", 1, p.rodata + z.rodata - 4, 4)]
    else []
  }

  function BssSymbols(z: Sizes, p: Addresses): seq<Wanted> {
    if z.bss == 0 then [] else
    [Wanted("oatbss", BssIndex(z), p.bss, z.bss), Wanted("oatbsslastword", BssIndex(z), p.bss + z.bss - 4, 4)]
  }

  function WantedSymbols(z: Sizes, p: Addresses): seq<Wanted> {
    DataSymbols(z, p) + CodeSymbols(z, p) + BssSymbols(z, p)
  }

  /** The symbol lies in the section it names. */
  predicate InItsSection(b: Builder, w: Wanted) {
    && 0 < w.index <= |b.sections|
    && var s := b.sections[w.index - 1];
       s.addr <= w.value && w.value + w.size <= s.addr + s.size
  }

  predicate LastWordsFit(z: Sizes) {
    && (z.text != 0 ==> z.text >= 4) && (z.text == 0 && z.rodata != 0 ==> z.rodata >= 4)
    && (z.bss != 0 ==> z.bss >= 4)
  }

  lemma CodeSymbolsIn(z: Sizes, p: Addresses, b: Builder)
    requires CodePlaced(z, p, b)
    ensures InItsSection(b, DataSymbols(z, p)[0])
    ensures (forall w :: w in CodeSymbols(z, p) ==> InItsSection(b, w)) <==>
            (z.text != 0 ==> z.text >= 4) && (z.text == 0 && z.rodata != 0 ==> z.rodata >= 4)
  {
    assert z.text != 0 ==> CodeSymbols(z, p)[0] in CodeSymbols(z, p) && CodeSymbols(z, p)[1] in CodeSymbols(z, p);
    assert z.text == 0 && z.rodata != 0 ==> CodeSymbols(z, p)[0] in CodeSymbols(z, p);
  }

  lemma BssSymbolsIn(z: Sizes, p: Addresses, b: Builder)
    requires CodePlaced(z, p, b) && p.text + z.text <= p.bss
    ensures (forall w :: w in BssSymbols(z, p) ==> InItsSection(b, w)) <==>
            z.bss == 0 || (z.text != 0 && z.bss >= 4)
  {
    assert z.bss != 0 ==> BssSymbols(z, p)[0] in BssSymbols(z, p) && BssSymbols(z, p)[1] in BssSymbols(z, p);
  }

  /**
   * Every symbol points into the section whose index it carries exactly if there is code or no
   * .bss: an empty .text still takes an index, which the symbols of .bss do not count.
   */
  lemma SymbolsInSections(z: Sizes)
    ensures (forall w :: w in WantedSymbols(z, Predicted(z)) ==> InItsSection(Written(z), w)) <==>
            (z.text != 0 || z.bss == 0) && LastWordsFit(z)
  {
    PredictionsHold(z);
    SymbolsPlaced(z, Predicted(z), Written(z));
  }

  /** A file without code whose .bss symbols name the empty .text. */
  lemma EmptyTextExample()
    ensures var z := Sizes(Elf32, false, PAGE_SIZE, 0, PAGE_SIZE, 8);
            !forall w :: w in WantedSymbols(z, Predicted(z)) ==> InItsSection(Written(z), w)
  {
    SymbolsInSections(Sizes(Elf32, false, PAGE_SIZE, 0, PAGE_SIZE, 8));
  }

  lemma SymbolsPlaced(z: Sizes, p: Addresses, b: Builder)
    requires CodePlaced(z, p, b) && p.text + z.text <= p.bss
    ensures (forall w :: w in WantedSymbols(z, p) ==> InItsSection(b, w)) <==>
            (z.text != 0 || z.bss == 0) && LastWordsFit(z)
  {
    CodeSymbolsIn(z, p, b);
    BssSymbolsIn(z, p, b);
    var all := WantedSymbols(z, p);
    assert forall w :: w in all <==> w in DataSymbols(z, p) || w in CodeSymbols(z, p) || w in BssSymbols(z, p);
  }

  /** The symbol is the whole section of this name. */
  ghost predicate IsSection(b: Builder, w: Wanted, name: string) {
    exists i :: 0 <= i < |b.sections| && b.sections[i].spec.name == name
                && w.value == b.sections[i].addr && w.size == b.sections[i].size
  }

  /** The symbol is the last word of the section of this name. */
  ghost predicate IsLastWord(b: Builder, w: Wanted, name: string) {
    exists i :: 0 <= i < |b.sections| && b.sections[i].spec.name == name
                && w.value + 4 == b.sections[i].addr + b.sections[i].size && w.size == 4
  }

  /** What the runtime takes a symbol for. */
  ghost predicate Means(z: Sizes, b: Builder, w: Wanted) {
    && (w.name == "oatdata" ==> IsSection(b, w, ".rodata"))
    && (w.name == "oatexec" ==> IsSection(b, w, ".text"))
    && (w.name == "oatlastword" ==> IsLastWord(b, w, if z.text != 0 then ".text" else ".rodata"))
    && (w.name == "oatbss" ==> IsSection(b, w, ".bss"))
    && (w.name == "oatbsslastword" ==> IsLastWord(b, w, ".bss"))
  }

  function NamesOf(ws: seq<Wanted>): seq<string> {
    seq(|ws|, i requires 0 <= i < |ws| => ws[i].name)
  }

  lemma DataSymbolsMean(z: Sizes, p: Addresses, b: Builder)
    requires CodePlaced(z, p, b)
    ensures forall w :: w in DataSymbols(z, p) + CodeSymbols(z, p) ==> Means(z, b, w)
    ensures NamesOf(DataSymbols(z, p) + CodeSymbols(z, p)) ==
            ["oatdata"] + if z.text != 0 then ["oatexec", "oatlastword"]
                          else if z.rodata != 0 then ["oatlastword"] else []
  {
    assert b.sections[0].spec.name == ".rodata" && b.sections[1].spec.name == ".text";
    assert "oatdata"[3] == 'd' && "oatexec"[3] == 'e' && "oatlastword"[3] == 'l' && "oatbss"[3] == 'b';
    assert |"oatbss"| == 6 && |"oatbsslastword"| == 14;
  }

  lemma BssSymbolsMean(z: Sizes, p: Addresses, b: Builder)
    requires CodePlaced(z, p, b)
    ensures forall w :: w in BssSymbols(z, p) ==> Means(z, b, w)
    ensures NamesOf(BssSymbols(z, p)) == if z.bss != 0 then ["oatbss", "oatbsslastword"] else []
  {
    assert z.bss != 0 ==> b.sections[2].spec.name == ".bss";
    assert "oatdata"[3] == 'd' && "oatexec"[3] == 'e' && "oatlastword"[3] == 'l' && "oatbss"[3] == 'b';
    assert |"oatbss"| == 6 && |"oatbsslastword"| == 14;
  }

  /** The symbols of a file, by name: where the sections really are, and their last words. */
  lemma SymbolsByName(z: Sizes)
    ensures var ws := WantedSymbols(z, Predicted(z));
            && (forall w :: w in ws ==> Means(z, Written(z), w))
            && NamesOf(ws) == ["oatdata"]
                              + (if z.text != 0 then ["oatexec", "oatlastword"]
                                 else if z.rodata != 0 then ["oatlastword"] else [])
                              + (if z.bss != 0 then ["oatbss", "oatbsslastword"] else [])
  {
    PredictionsHold(z);
    var p := Predicted(z);
    DataSymbolsMean(z, p, Written(z));
    BssSymbolsMean(z, p, Written(z));
    assert NamesOf(WantedSymbols(z, p)) == NamesOf(DataSymbols(z, p) + CodeSymbols(z, p)) + NamesOf(BssSymbols(z, p));
  }

  datatype DynTag = DtHash | DtStrtab | DtSymtab | DtSyment | DtStrsz | DtSoname | DtNull

  /** An entry of .dynamic. */
  datatype Dyn = Dyn(tag: DynTag, value: nat)

  function DynamicEntries(z: Sizes, p: Addresses, soname: nat): seq<Dyn> {
    [Dyn(DtHash, p.hash), Dyn(DtStrtab, p.dynstr), Dyn(DtSymtab, p.dynsym),
     Dyn(DtSyment, if z.elf.Elf32? then 16 else 24), Dyn(DtStrsz, z.DynstrSize()), Dyn(DtSoname, soname),
     Dyn(DtNull, 0)]
  }

  ghost predicate AddressOf(b: Builder, value: nat, name: string) {
    exists i :: 0 <= i < |b.sections| && b.sections[i].spec.name == name && value == b.sections[i].addr
  }

  ghost predicate SizeOf(b: Builder, value: nat, name: string) {
    exists i :: 0 <= i < |b.sections| && b.sections[i].spec.name == name && value == b.sections[i].size
  }

  /** What the dynamic linker takes an entry for. */
  ghost predicate Leads(z: Sizes, b: Builder, soname: nat, d: Dyn) {
    match d.tag
    case DtHash => AddressOf(b, d.value, ".hash")
    case DtStrtab => AddressOf(b, d.value, ".dynstr")
    case DtSymtab => AddressOf(b, d.value, ".dynsym")
    case DtSyment => SizeOf(b, d.value * z.SymbolCount(), ".dynsym")
    case DtStrsz => SizeOf(b, d.value, ".dynstr")
    case DtSoname => d.value == soname
    case DtNull => d.value == 0
  }

  predicate HasTag(ds: seq<Dyn>, tag: DynTag) {
    exists i :: 0 <= i < |ds| && ds[i].tag == tag
  }

  lemma EntriesLead(z: Sizes, p: Addresses, b: Builder, soname: nat)
    requires TablesPlaced(z, p, b) && |b.sections| >= DynstrAt(z) + 3
    ensures forall i :: 0 <= i < 7 ==> Leads(z, b, soname, DynamicEntries(z, p, soname)[i])
  {
    TablesNamed(z, p, b);
  }

  lemma AllTags(z: Sizes, p: Addresses, soname: nat, tag: DynTag)
    ensures HasTag(DynamicEntries(z, p, soname), tag)
  {
    var ds := DynamicEntries(z, p, soname);
    assert ds[0].tag == DtHash && ds[1].tag == DtStrtab && ds[2].tag == DtSymtab && ds[3].tag == DtSyment;
    assert ds[4].tag == DtStrsz && ds[5].tag == DtSoname && ds[6].tag == DtNull;
  }

  /** The entries of .dynamic fill it, end with the null entry, and lead to where the tables really are. */
  lemma DynamicLeads(z: Sizes, soname: nat)
    ensures var ds := DynamicEntries(z, Predicted(z), soname);
            && |ds| * z.elf.DynSize() == z.DynamicSize()
            && (forall i :: 0 <= i < |ds| ==> Leads(z, Written(z), soname, ds[i]))
            && (forall tag :: HasTag(ds, tag))
            && (forall i :: 0 <= i < |ds| ==> (ds[i].tag == DtNull <==> i == |ds| - 1))
  {
    PredictionsHold(z);
    EntriesLead(z, Predicted(z), Written(z), soname);
    forall tag ensures HasTag(DynamicEntries(z, Predicted(z), soname), tag) {
      AllTags(z, Predicted(z), soname, tag);
    }
  }

  lemma TablesNamed(z: Sizes, p: Addresses, b: Builder)
    requires TablesPlaced(z, p, b) && |b.sections| >= DynstrAt(z) + 3
    ensures AddressOf(b, p.dynstr, ".dynstr") && SizeOf(b, z.DynstrSize(), ".dynstr")
    ensures AddressOf(b, p.dynsym, ".dynsym") && SizeOf(b, z.DynsymSize(), ".dynsym")
    ensures AddressOf(b, p.hash, ".hash")
  {
    var n := DynstrAt(z);
    assert b.sections[n].spec.name == ".dynstr" && b.sections[n + 1].spec.name == ".dynsym";
    assert b.sections[n + 2].spec.name == ".hash";
  }

  /** The table holds the wanted symbols in order after the null symbol, each with its name. */
  ghost predicate Table(dynstr: string, dynsym: seq<Symbol>, wanted: seq<Wanted>) {
    && |dynsym| == |wanted| + 1 && dynsym[0] == Symbol(0, 0, 0, 0)
    && forall i :: 0 <= i < |wanted| ==> Entry(dynstr, dynsym[i + 1], wanted[i])
  }

  ghost predicate Entry(dynstr: string, s: Symbol, w: Wanted) {
    Holds(dynstr, s.name, w.name) && s == Symbol(s.name, w.index, w.value, w.size)
  }

  method AddSymbol(dynstr: string, dynsym: seq<Symbol>, w: Wanted, ghost wanted: seq<Wanted>)
    returns (strings: string, symbols: seq<Symbol>)
    requires Table(dynstr, dynsym, wanted)
    ensures Table(strings, symbols, wanted + [w])
    ensures |strings| == |dynstr| + |w.name| + 1
  {
    strings := dynstr + w.name + ['\0'];
    symbols := dynsym + [Symbol(|dynstr|, w.index, w.value, w.size)];
    forall i | 0 <= i < |wanted| ensures Entry(strings, symbols[i + 1], wanted[i]) {
      assert Entry(dynstr, dynsym[i + 1], wanted[i]);
      HoldsOn(dynstr, dynsym[i + 1].name, wanted[i].name, w.name + ['\0']);
      assert strings == dynstr + (w.name + ['\0']);
    }
    assert strings[|dynstr|..|dynstr| + |w.name|] == w.name;
  }

  method AddCodeSymbols(z: Sizes, p: Addresses, dynstr: string, dynsym: seq<Symbol>, ghost wanted: seq<Wanted>)
    returns (strings: string, symbols: seq<Symbol>)
    requires Table(dynstr, dynsym, wanted)
    ensures Table(strings, symbols, wanted + CodeSymbols(z, p))
    ensures |strings| == |dynstr| + (if z.text != 0 then 20 else if z.rodata != 0 then 12 else 0)
  {
    strings, symbols := dynstr, dynsym;
    if z.text != 0 {
      var exec := Wanted("oatexec", 2, p.text, z.text);
      strings, symbols := AddSymbol(strings, symbols, exec, wanted);
      var last := Wanted("oatlastword", 2, p.text + z.text - 4, 4);
      strings, symbols := AddSymbol(strings, symbols, last, wanted + [exec]);
      assert wanted + [exec] + [CodeSymbols(z, p)[1]] == wanted + CodeSymbols(z, p);
    } else if z.rodata != 0 {
      strings, symbols := AddSymbol(strings, symbols, Wanted("oatlastword", 1, p.rodata + z.rodata - 4, 4), wanted);
    } else {
      assert wanted + CodeSymbols(z, p) == wanted;
    }
  }

  method AddBssSymbols(z: Sizes, p: Addresses, dynstr: string, dynsym: seq<Symbol>, ghost wanted: seq<Wanted>)
    returns (strings: string, symbols: seq<Symbol>)
    requires Table(dynstr, dynsym, wanted)
    ensures Table(strings, symbols, wanted + BssSymbols(z, p))
    ensures |strings| == |dynstr| + (if z.bss != 0 then 22 else 0)
  {
    strings, symbols := dynstr, dynsym;
    if z.bss != 0 {
      var bss := Wanted("oatbss", BssIndex(z), p.bss, z.bss);
      strings, symbols := AddSymbol(strings, symbols, bss, wanted);
      var last := Wanted("oatbsslastword", BssIndex(z), p.bss + z.bss - 4, 4);
      strings, symbols := AddSymbol(strings, symbols, last, wanted + [bss]);
      assert wanted + [bss] + [last] == wanted + BssSymbols(z, p);
    } else {
      assert wanted + BssSymbols(z, p) == wanted;
    }
  }

  /** Fills .dynstr, .dynsym and .hash; their sizes are the ones the addresses are computed from. */
  method PrepareDynamicSection(z: Sizes, p: Addresses, soname: string)
    returns (dynstr: string, dynsym: seq<Symbol>, sonameOffset: nat, hash: seq<nat>, dynamic: seq<Dyn>)
    requires z.soname == |soname| && '\0' !in soname
    ensures Table(dynstr, dynsym, WantedSymbols(z, p))
    ensures sonameOffset <= |dynstr| && NameAt(dynstr, sonameOffset) == soname
    ensures IsHash(hash, |dynsym|)
    ensures |dynstr| == z.DynstrSize() && |dynsym| == z.SymbolCount() && 4 * |hash| == z.HashSize()
    ensures dynamic == DynamicEntries(z, p, sonameOffset)
  {
    ghost var data := DataSymbols(z, p);
    dynstr, dynsym := ['\0'], [Symbol(0, 0, 0, 0)];
    dynstr, dynsym := AddSymbol(dynstr, dynsym, Wanted("oatdata", 1, p.rodata, z.rodata), []);
    assert [] + data == data;
    dynstr, dynsym := AddCodeSymbols(z, p, dynstr, dynsym, data);
    dynstr, dynsym := AddBssSymbols(z, p, dynstr, dynsym, data + CodeSymbols(z, p));
    sonameOffset := |dynstr|;
    dynstr := AddSoname(dynstr, dynsym, soname, WantedSymbols(z, p));
    hash := MakeHash(|dynsym|);
    dynamic := [Dyn(DtHash, p.hash), Dyn(DtStrtab, p.dynstr), Dyn(DtSymtab, p.dynsym),
                Dyn(DtSyment, if z.elf.Elf32? then 16 else 24), Dyn(DtStrsz, |dynstr|), Dyn(DtSoname, sonameOffset),
                Dyn(DtNull, 0)];
  }

  method AddSoname(dynstr: string, dynsym: seq<Symbol>, soname: string, ghost wanted: seq<Wanted>)
    returns (strings: string)
    requires Table(dynstr, dynsym, wanted) && '\0' !in soname
    ensures Table(strings, dynsym, wanted) && |strings| == |dynstr| + |soname| + 1
    ensures NameAt(strings, |dynstr|) == soname
  {
    strings := dynstr + soname + ['\0'];
    forall i | 0 <= i < |wanted| ensures Entry(strings, dynsym[i + 1], wanted[i]) {
      HoldsOn(dynstr, dynsym[i + 1].name, wanted[i].name, soname + ['\0']);
      assert strings == dynstr + (soname + ['\0']);
    }
    NameAtReads(dynstr, soname, []);
    assert strings == dynstr + soname + ['\0'] + [];
  }

  /** The file's name: what follows the last separator of its path. */
  method Soname(path: string) returns (soname: string)
    ensures '/' !in soname && |soname| <= |path| && path[|path| - |soname|..] == soname
    ensures |soname| < |path| ==> path[|path| - |soname| - 1] == '/'
  {
    var at := |path|;
    while at > 0 && path[at - 1] != '/'
      invariant 0 <= at <= |path|
      invariant '/' !in path[at..]
    {
      at := at - 1;
    }
    soname := path[at..];
  }

  /** .hash: one bucket, so that the chain runs through all symbols. */
  method MakeHash(count: nat) returns (hash: seq<nat>)
    requires count >= 2
    ensures IsHash(hash, count)
  {
    hash := [1, count, 1, 0];
    var i := 1;
    while i < count - 1
      invariant 1 <= i <= count - 1 && |hash| == i + 3
      invariant hash[..4] == [1, count, 1, 0]
      invariant forall j :: 4 <= j < i + 3 ==> hash[j] == j - 2
    {
      hash := hash + [i + 1];
      i := i + 1;
    }
    hash := hash + [0];
    assert hash[..4] == [1, count, 1, 0];
  }

  ghost predicate IsHash(hash: seq<nat>, count: nat) {
    && |hash| == count + 3 && count >= 2 && hash[0] == 1 && hash[1] == count && hash[2] == 1
    && hash[count + 2] == 0
    && forall j :: 4 <= j < count + 2 ==> hash[j] == j - 2
  }

  /** The symbols a linker compares when it looks something up: bucket 0, then along the chain. */
  ghost predicate Chain(hash: seq<nat>, path: seq<nat>)
    requires |hash| >= 3
  {
    && path != [] && path[0] == hash[2]
    && (forall i :: 0 <= i < |path| ==> 0 < path[i] && 3 + path[i] < |hash|)
    && (forall i :: 0 <= i < |path| - 1 ==> path[i + 1] == hash[3 + path[i]])
    && hash[3 + path[|path| - 1]] == 0
  }

  lemma {:induction false} ChainAscends(hash: seq<nat>, count: nat, path: seq<nat>, i: nat)
    requires IsHash(hash, count) && Chain(hash, path) && i < |path|
    ensures path[i] == i + 1 && i + 1 < count
  {
    if i > 0 {
      ChainAscends(hash, count, path, i - 1);
      assert path[i - 1 + 1] == hash[3 + path[i - 1]];
    }
  }

  /** The lookup meets every symbol but the null symbol exactly once, and then ends. */
  lemma ChainListsAll(hash: seq<nat>, count: nat, path: seq<nat>)
    requires IsHash(hash, count)
    ensures Chain(hash, path) <==> path == seq(count - 1, i => i + 1)
  {
    if Chain(hash, path) {
      forall i | 0 <= i < |path| ensures path[i] == i + 1 {
        ChainAscends(hash, count, path, i);
      }
      ChainAscends(hash, count, path, |path| - 1);
      assert |path| == count - 1;
    }
  }
}
