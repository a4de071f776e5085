/** Rounding and code alignment (runtime/base/bit_utils.h, runtime/arch/instruction_set.cc). */
module Align {

  const PAGE_SIZE: nat := 4096

  const OBJECT_ALIGNMENT: nat := 8

  /** A multiple of n that is strictly between -n and n is zero. */
  lemma SmallMultiple(k: int, n: int)
    requires n > 0 && -n < k * n < n
    ensures k == 0
  {
  }

  /** Two numbers less than n apart that leave the same remainder are equal. */
  lemma SameResidue(a: nat, b: nat, n: nat)
    requires n > 0 && a % n == b % n
    requires a < b + n && b < a + n
    ensures a == b
  {
    var q, p := a / n, b / n;
    assert a - b == (q - p) * n by {
      assert a == n * q + a % n && b == n * p + b % n;
    }
    SmallMultiple(q - p, n);
  }

  lemma RemainderOf(q: nat, r: nat, n: nat)
    requires n > 0 && r < n
    ensures (q * n + r) % n == r
  {
    var x := q * n + r;
    assert (x / n - q) * n == r - x % n by {
      assert x == n * (x / n) + x % n;
    }
    SmallMultiple(x / n - q, n);
  }

  lemma AddMultiple(x: nat, k: nat, n: nat)
    requires n > 0 && k % n == 0
    ensures (x + k) % n == x % n
  {
    var q, p := x / n, k / n;
    assert x + k == (q + p) * n + x % n by {
      assert x == n * q + x % n && k == n * p;
    }
    RemainderOf(q + p, x % n, n);
  }

  lemma NextMultiple(x: nat, n: nat)
    requires n > 0
    ensures (x + n - x % n) % n == 0
  {
    assert x + n - x % n == (x / n + 1) * n by {
      assert x == n * (x / n) + x % n;
    }
    RemainderOf(x / n + 1, 0, n);
  }

  /** The least multiple of n that is at least x. */
  function RoundUp(x: nat, n: nat): (r: nat)
    requires n > 0
    ensures x <= r < x + n && r % n == 0
  {
    var r := if x % n == 0 then x else x + n - x % n;
    assert r % n == 0 by { NextMultiple(x, n); }
    r
  }

  lemma RoundUpUnique(x: nat, n: nat, r: nat)
    requires n > 0 && x <= r < x + n && r % n == 0
    ensures RoundUp(x, n) == r
  {
    SameResidue(r, RoundUp(x, n), n);
  }

  /** Rounding commutes with adding a multiple of the alignment. */
  lemma RoundUpShift(x: nat, k: nat, n: nat)
    requires n > 0 && k % n == 0
    ensures RoundUp(x + k, n) == RoundUp(x, n) + k
  {
    AddMultiple(RoundUp(x, n), k, n);
    RoundUpUnique(x + k, n, RoundUp(x, n) + k);
  }

  /** A multiple of n that is at least x is at least RoundUp(x, n). */
  lemma RoundUpLeast(x: nat, n: nat, m: nat)
    requires n > 0 && m % n == 0 && x <= m
    ensures RoundUp(x, n) <= m
  {
    var r := RoundUp(x, n);
    if m < r {
      SameResidue(m, r, n);
    }
  }

  lemma SubMultiple(a: nat, b: nat, n: nat)
    requires n > 0 && a % n == 0 && b % n == 0 && b <= a
    ensures (a - b) % n == 0
  {
    var q, p := a / n, b / n;
    assert a == q * n && b == p * n;
    assert a - b == (q - p) * n;
    RemainderOf(q - p, 0, n);
  }

  lemma DividesTrans(x: nat, a: nat, b: nat)
    requires a > 0 && b > 0 && b % a == 0 && x % b == 0
    ensures x % a == 0
  {
    var q, p := x / b, b / a;
    assert x == q * b && b == p * a;
    assert x == (q * p) * a;
    RemainderOf(q * p, 0, a);
  }

  /** Instruction sets with code alignment {mod, offset} and the Thumb-mode delta. */
  datatype InstructionSet = Arm | Arm64 | Thumb2 | X86 | X86_64 | Mips | Mips64 {

    /** Code must start at an offset that is offset modulo mod. */
    function Mod(): (m: nat)
      ensures m == 16 <==> this in {Arm64, X86, X86_64}
      ensures m == 8 <==> this in {Arm, Thumb2, Mips, Mips64}
    {
      match this
      case Arm | Thumb2 | Mips | Mips64 => 8
      case Arm64 | X86 | X86_64 => 16
    }

    function Residue(): (r: nat)
      ensures r < Mod()
      ensures r == 2 <==> this in {X86, X86_64}
      ensures r == 0 <==> this !in {X86, X86_64}
    {
      match this
      case X86 | X86_64 => 2
      case _ => 0
    }

    /** Distance from the code to a usable entry point. */
    function CodeDelta(): (d: nat)
      ensures d <= 1 && (d == 1 <==> Thumb2?)
    {
      if Thumb2? then 1 else 0
    }

    /** The least offset at or after x that is aligned for code. */
    function AlignCode(x: nat): (y: nat)
      ensures x <= y < x + Mod() && y % Mod() == Residue()
    {
      var current := x % Mod();
      x + (Residue() + (if current <= Residue() then 0 else Mod()) - current)
    }

    lemma AlignCodeLeast(x: nat, z: nat)
      requires x <= z && z % Mod() == Residue()
      ensures AlignCode(x) <= z
    {
      if z < AlignCode(x) {
        SameResidue(z, AlignCode(x), Mod());
      }
    }
  }
}
