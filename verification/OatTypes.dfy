/** What the compiler driver hands to the oat writer (compiler/compiled_method.h). */
module OatTypes {
  import opened Align

  type byte = x: int | 0 <= x < 256

  datatype Option<+T> = None | Some(value: T)

  datatype MethodRef = MethodRef(dexFile: nat, methodIndex: nat)

  datatype PatchKind =
    | RecordPosition | MethodAddress | CallAddress | CallRelative
    | TypeAddress | StringAddress | StringRelative | DexCacheArray

  /**
   * A place in the code that needs an address: of a method, or of the string, type or dex cache
   * element `index` of a dex file. pcInsnOffset is the place the processor counts from.
   */
  datatype LinkerPatch = LinkerPatch(literalOffset: nat, kind: PatchKind, dexFile: nat, index: nat,
                                     pcInsnOffset: nat)
  {
    predicate IsPcRelative() {
      kind.CallRelative? || kind.StringRelative? || kind.DexCacheArray?
    }

    predicate IsCall() {
      kind.CallAddress? || kind.CallRelative?
    }

    function TargetMethod(): MethodRef {
      MethodRef(dexFile, index)
    }
  }

  /**
   * Code, vmap table and patch list come with the address of the deduplicated array that holds
   * them (0 for the empty array): the oat writer compares addresses only.
   */
  datatype CompiledMethod = CompiledMethod(
    isa: InstructionSet,
    codeId: nat, code: seq<byte>,
    vmapId: nat, vmap: seq<byte>,
    patchesId: nat, patches: seq<LinkerPatch>,
    frameSize: nat, coreSpillMask: nat, fpSpillMask: nat)

  /**
   * The compiler driver's tables: one body for each method, and the deduplicated arrays by
   * address. One piece of code belongs to one instruction set.
   */
  datatype Program = Program(
    methods: map<MethodRef, CompiledMethod>,
    codes: map<nat, (InstructionSet, seq<byte>)>,
    vmaps: map<nat, seq<byte>>,
    patches: map<nat, seq<LinkerPatch>>)
  {
    /** The method's arrays are the ones stored under its addresses. */
    predicate Stores(m: CompiledMethod) {
      && m.codeId in codes && codes[m.codeId] == (m.isa, m.code)
      && m.vmapId in vmaps && vmaps[m.vmapId] == m.vmap
      && m.patchesId in patches && patches[m.patchesId] == m.patches
    }

    predicate Has(v: Visit) {
      v.ref in methods && methods[v.ref] == v.body && Stores(v.body)
    }
  }

  /** One call of a visitor's processing code: where the results go, and for which method. */
  datatype Visit = Visit(oatClass: nat, slot: nat, ref: MethodRef, body: CompiledMethod)

  /** The visits are of methods of the program. */
  ghost predicate Linked(prog: Program, vs: seq<Visit>) {
    forall i :: 0 <= i < |vs| ==> prog.Has(vs[i])
  }
}
