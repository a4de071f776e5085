/** Unsigned 32-bit arithmetic and little-endian words. */
module Words {
  import opened OatTypes

  const TWO32: nat := 0x1_0000_0000

  /** The value of an integer stored in a uint32_t. */
  function Word(x: int): (w: nat)
    ensures w < TWO32
  {
    x % TWO32
  }

  lemma WordOf(x: int, y: int, k: int)
    requires 0 <= x < TWO32 && y == x + k * TWO32
    ensures Word(y) == x
  {
  }

  /** Conversions to uint32_t in the middle of a sum do not matter. */
  lemma WordSum(a: int, b: int)
    ensures Word(Word(a) + b) == Word(a + b) && Word(b - Word(a)) == Word(b - a)
  {
    var k := a / TWO32;
    assert a == Word(a) + k * TWO32;
    var s, d := Word(a) + b, b - Word(a);
    WordOf(Word(s), a + b, s / TWO32 + k);
    WordOf(Word(d), b - a, d / TWO32 - k);
  }

  function Le32(w: nat): (b: seq<byte>)
    requires w < TWO32
    ensures |b| == 4
  {
    [w % 256, w / 256 % 256, w / 65536 % 256, w / 16777216]
  }

  function Read32(b: seq<byte>, at: nat): nat
    requires at + 4 <= |b|
  {
    (b[at] as int) + 256 * (b[at + 1] as int) + 65536 * (b[at + 2] as int) + 16777216 * (b[at + 3] as int)
  }

  lemma ReadLe32(w: nat)
    requires w < TWO32
    ensures Read32(Le32(w), 0) == w
  {
    assert w == w % 256 + 256 * (w / 256);
    assert w / 256 == w / 256 % 256 + 256 * (w / 65536);
    assert w / 65536 == w / 65536 % 256 + 256 * (w / 16777216);
  }
}
