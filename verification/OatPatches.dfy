/**
 * Patching addresses into the code while it is written (compiler/oat_writer.cc and, for
 * pc-relative patches, compiler/linker/x86 and compiler/linker/x86_64).
 */
module OatPatches {
  import opened Align
  import opened OatTypes
  import opened Words

  /** The pc-relative encodings of the Intel instruction sets; absolute patches go anywhere. */
  predicate Patchable(isa: InstructionSet, p: LinkerPatch) {
    p.IsPcRelative() ==> isa.X86? || isa.X86_64?
  }

  /** A kRecordPosition patch only marks a place. */
  predicate Writes(p: LinkerPatch) {
    !p.kind.RecordPosition?
  }

  /**
   * What the linker knows: the offset or address a patch refers to, and the four bytes the relative
   * patchers of the other instruction sets make of the code so far, its offset, a patch and a target.
   */
  datatype Resolver = Resolver(target: LinkerPatch -> int,
                               encode: (InstructionSet, seq<byte>, nat, LinkerPatch, int) -> nat)

  /** GetTargetOffset: a call goes to the code of its method if that has been laid out. */
  function WithOffsets(resolve: Resolver, offsets: map<MethodRef, nat>): Resolver {
    Resolver((p: LinkerPatch) =>
               if p.IsCall() && p.TargetMethod() in offsets then offsets[p.TargetMethod()] else resolve.target(p),
             resolve.encode)
  }

  /** The displacement of a pc-relative patch for an Intel instruction set. */
  function Displacement(isa: InstructionSet, code: nat, p: LinkerPatch, target: int): int {
    if isa.X86? && !p.kind.CallRelative? then target - (code + p.pcInsnOffset)
    else target - (code + p.literalOffset) - 4
  }

  /** What is stored at the literal of p, in a buffer with code for offset `code`. */
  function PatchWord(isa: InstructionSet, buffer: seq<byte>, code: nat, p: LinkerPatch, resolve: Resolver): (w: nat)
    ensures w < TWO32
  {
    var target := resolve.target(p);
    if !p.IsPcRelative() then Word(target)
    else if Patchable(isa, p) then Word(Displacement(isa, code, p, target))
    else Word(resolve.encode(isa, buffer, code, p, target))
  }

  /** Where the processor counts from when it uses the literal: nowhere, for an address. */
  function Anchor(isa: InstructionSet, code: nat, p: LinkerPatch): nat {
    if !p.IsPcRelative() then 0
    else if isa.X86? && !p.kind.CallRelative? then code + p.pcInsnOffset
    else code + p.literalOffset + 4
  }

  /** The literal leads to the target, in 32-bit arithmetic. */
  lemma LeadsToTarget(isa: InstructionSet, buffer: seq<byte>, code: nat, p: LinkerPatch, resolve: Resolver)
    requires Patchable(isa, p) && Writes(p)
    ensures Word(Anchor(isa, code, p) + PatchWord(isa, buffer, code, p, resolve)) == Word(resolve.target(p))
  {
    WordSum(resolve.target(p) - Anchor(isa, code, p), Anchor(isa, code, p));
  }

  function Overwrite(b: seq<byte>, at: nat, w: nat): (r: seq<byte>)
    requires at + 4 <= |b| && w < TWO32
    ensures |r| == |b|
  {
    b[..at] + Le32(w) + b[at + 4..]
  }

  lemma OverwriteBytes(b: seq<byte>, at: nat, w: nat)
    requires at + 4 <= |b| && w < TWO32
    ensures Read32(Overwrite(b, at, w), at) == w
    ensures forall k :: 0 <= k < |b| && !(at <= k < at + 4) ==> Overwrite(b, at, w)[k] == b[k]
  {
    ReadLe32(w);
    var r := Overwrite(b, at, w);
    assert r[at] == Le32(w)[0] && r[at + 1] == Le32(w)[1] && r[at + 2] == Le32(w)[2] && r[at + 3] == Le32(w)[3];
  }

  ghost predicate LiteralsInside(m: CompiledMethod) {
    forall i :: 0 <= i < |m.patches| ==> m.patches[i].literalOffset + 4 <= |m.code|
  }

  /** The literals that are written do not overlap. */
  ghost predicate LiteralsDisjoint(m: CompiledMethod) {
    forall i, j :: 0 <= i < j < |m.patches| && Writes(m.patches[i]) && Writes(m.patches[j]) ==>
      m.patches[i].literalOffset + 4 <= m.patches[j].literalOffset
      || m.patches[j].literalOffset + 4 <= m.patches[i].literalOffset
  }

  /** The code after the first k patches. */
  function Patched(m: CompiledMethod, code: nat, resolve: Resolver, k: nat): (r: seq<byte>)
    requires LiteralsInside(m) && k <= |m.patches|
    ensures |r| == |m.code|
  {
    if k == 0 then m.code
    else
      var before, p := Patched(m, code, resolve, k - 1), m.patches[k - 1];
      if Writes(p) then Overwrite(before, p.literalOffset, PatchWord(m.isa, before, code, p, resolve)) else before
  }

  function Literal(b: seq<byte>, p: LinkerPatch): nat
    requires p.literalOffset + 4 <= |b|
  {
    Read32(b, p.literalOffset)
  }

  /** Every patched literal leads to its target; the patches do not disturb each other. */
  lemma {:induction false} LiteralsLead(m: CompiledMethod, code: nat, resolve: Resolver, k: nat, i: nat)
    requires LiteralsInside(m) && LiteralsDisjoint(m) && i < k <= |m.patches|
    requires Writes(m.patches[i]) && Patchable(m.isa, m.patches[i])
    ensures var p := m.patches[i];
            Word(Anchor(m.isa, code, p) + Literal(Patched(m, code, resolve, k), p)) == Word(resolve.target(p))
  {
    var p, last := m.patches[i], m.patches[k - 1];
    var before := Patched(m, code, resolve, k - 1);
    if Writes(last) {
      OverwriteBytes(before, last.literalOffset, PatchWord(m.isa, before, code, last, resolve));
    }
    if i < k - 1 {
      LiteralsLead(m, code, resolve, k - 1, i);
      assert forall d :: p.literalOffset <= d < p.literalOffset + 4 ==>
          Patched(m, code, resolve, k)[d] == before[d];
    } else {
      LeadsToTarget(m.isa, before, code, p, resolve);
    }
  }

  /** Relative patches of the other instruction sets: what their patcher made of the code so far stays there. */
  lemma {:induction false} LiteralsEncoded(m: CompiledMethod, code: nat, resolve: Resolver, k: nat, i: nat)
    requires LiteralsInside(m) && LiteralsDisjoint(m) && i < k <= |m.patches|
    requires m.patches[i].IsPcRelative() && !m.isa.X86? && !m.isa.X86_64?
    ensures var p := m.patches[i];
            Literal(Patched(m, code, resolve, k), p) ==
            Word(resolve.encode(m.isa, Patched(m, code, resolve, i), code, p, resolve.target(p)))
  {
    var p, last := m.patches[i], m.patches[k - 1];
    var before := Patched(m, code, resolve, k - 1);
    if Writes(last) {
      OverwriteBytes(before, last.literalOffset, PatchWord(m.isa, before, code, last, resolve));
    }
    if i < k - 1 {
      LiteralsEncoded(m, code, resolve, k - 1, i);
      assert forall d :: p.literalOffset <= d < p.literalOffset + 4 ==>
          Patched(m, code, resolve, k)[d] == before[d];
    }
  }

  /** Every byte outside the written literals is the compiler's. */
  lemma {:induction false} OtherBytesUnchanged(m: CompiledMethod, code: nat, resolve: Resolver, k: nat, d: nat)
    requires LiteralsInside(m) && k <= |m.patches| && d < |m.code|
    requires forall i :: 0 <= i < k && Writes(m.patches[i]) ==>
               !(m.patches[i].literalOffset <= d < m.patches[i].literalOffset + 4)
    ensures Patched(m, code, resolve, k)[d] == m.code[d]
  {
    if k > 0 {
      OtherBytesUnchanged(m, code, resolve, k - 1, d);
      var before, last := Patched(m, code, resolve, k - 1), m.patches[k - 1];
      if Writes(last) {
        OverwriteBytes(before, last.literalOffset, PatchWord(m.isa, before, code, last, resolve));
      }
    }
  }

  /** The loop over the patches, in the visitor's own copy of the code. */
  method PatchCode(m: CompiledMethod, code: nat, resolve: Resolver, patched: array<byte>)
    requires LiteralsInside(m) && patched.Length == |m.code|
    modifies patched
    ensures patched[..] == Patched(m, code, resolve, |m.patches|)
  {
    forall d | 0 <= d < patched.Length {
      patched[d] := m.code[d];
    }
    var k := 0;
    while k < |m.patches|
      invariant 0 <= k <= |m.patches|
      invariant patched[..] == Patched(m, code, resolve, k)
    {
      var p := m.patches[k];
      if Writes(p) {
        StoreWord(patched, p.literalOffset, PatchWord(m.isa, patched[..], code, p, resolve));
      }
      k := k + 1;
    }
  }

  method StoreWord(data: array<byte>, at: nat, w: nat)
    requires at + 4 <= data.Length && w < TWO32
    modifies data
    ensures data[..] == Overwrite(old(data[..]), at, w)
  {
    data[at] := w % 256;
    data[at + 1] := w / 256 % 256;
    data[at + 2] := w / 65536 % 256;
    data[at + 3] := w / 16777216;
  }
}
