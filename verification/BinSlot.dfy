/**
 * The bin slot of an object, packed into the 32 bits of its lock word (compiler/image_writer.cc,
 * runtime/lock_word.h): the bin goes to bits 27 to 29, or-ed over the index in the bin.
 */
module BinSlot {
  const BIN_SHIFT: nat := 0x800_0000
  const WORD: nat := 0x1_0000_0000

  /** The bits 27 to 29 of a word. */
  function BinBits(word: nat): (bits: nat)
    ensures bits < 8
  {
    word / BIN_SHIFT % 8
  }

  function OrBit(a: nat, b: nat): (r: nat)
    ensures r <= 1
  {
    if a % 2 == 1 || b % 2 == 1 then 1 else 0
  }

  function Or3(a: nat, b: nat): (r: nat)
    ensures r < 8
  {
    4 * OrBit(a / 4, b / 4) + 2 * OrBit(a / 2, b / 2) + OrBit(a, b)
  }

  /** The word with other bits in the place of the bin. */
  function WithBits(word: nat, bits: nat): nat
    requires bits < 8
  {
    word - BinBits(word) * BIN_SHIFT + bits * BIN_SHIFT
  }

  /** index | bin << 27. */
  function Packed(bin: nat, index: nat): nat
    requires bin < 8 && index < WORD
  {
    WithBits(index, Or3(BinBits(index), bin))
  }

  function GetBin(word: nat): nat {
    BinBits(word)
  }

  /** The word without the bits of the bin. */
  function GetIndex(word: nat): nat {
    word - BinBits(word) * BIN_SHIFT
  }

  lemma Or3Zero(b: nat)
    requires b < 8
    ensures Or3(0, b) == b
  {
    assert b in {0, 1, 2, 3, 4, 5, 6, 7};
  }

  lemma WithBitsParts(word: nat, bits: nat)
    requires bits < 8
    ensures BinBits(WithBits(word, bits)) == bits
    ensures GetIndex(WithBits(word, bits)) == word - BinBits(word) * BIN_SHIFT
  {
    var low, high := word % BIN_SHIFT, word / BIN_SHIFT;
    assert WithBits(word, bits) == (high - high % 8 + bits) * BIN_SHIFT + low;
    assert WithBits(word, bits) / BIN_SHIFT == high - high % 8 + bits;
  }

  /**
   * A bin slot is read back as it was stored exactly if the index leaves the bits of the bin free,
   * which all indices below 128 MiB do.
   */
  lemma RoundTrip(bin: nat, index: nat)
    requires bin < 8 && index < WORD
    ensures GetBin(Packed(bin, index)) == bin && GetIndex(Packed(bin, index)) == index <==> BinBits(index) == 0
    ensures index < BIN_SHIFT ==> BinBits(index) == 0
  {
    var bits := BinBits(index);
    WithBitsParts(index, Or3(bits, bin));
    if bits == 0 {
      Or3Zero(bin);
    } else {
      assert bits * BIN_SHIFT > 0;
    }
  }

  /** The bits of the bin are free, and none is cut off. */
  predicate Readable(index: nat) {
    index < WORD && BinBits(index) == 0
  }

  lemma Or3AtLeast(a: nat, b: nat)
    requires a < 8 && b < 8
    ensures b <= Or3(a, b)
  {
    assert a in {0, 1, 2, 3, 4, 5, 6, 7};
    assert b in {0, 1, 2, 3, 4, 5, 6, 7};
  }

  lemma IndexPart(word: nat)
    ensures 0 <= GetIndex(word) <= word && (BinBits(word) > 0 ==> GetIndex(word) < word)
  {
    var high := word / BIN_SHIFT;
    assert high % 8 * BIN_SHIFT <= high * BIN_SHIFT <= word;
  }

  /** What comes back from a slot: the index if it is readable, and otherwise a smaller one or a later bin. */
  lemma ReadBack(bin: nat, index: nat)
    requires bin < 8
    ensures var word := Packed(bin, index % WORD);
            && bin <= GetBin(word) < 8 && 0 <= GetIndex(word) <= index
            && (Readable(index) ==> GetBin(word) == bin && GetIndex(word) == index)
            && (!Readable(index) && GetBin(word) == bin ==> GetIndex(word) < index)
  {
    var i := index % WORD;
    assert i <= index && (i == index <==> index < WORD);
    WithBitsParts(i, Or3(BinBits(i), bin));
    Or3AtLeast(BinBits(i), bin);
    IndexPart(i);
    if BinBits(i) == 0 {
      Or3Zero(bin);
    }
  }

  /** Indices below 128 MiB are readable, and from there on to 1 GiB none is. */
  lemma ReadableRange(index: nat)
    requires index < 8 * BIN_SHIFT
    ensures Readable(index) <==> index < BIN_SHIFT
  {
  }

  /** The first index that is lost: an object 128 MiB into its bin. */
  lemma IndexLost()
    ensures BinBits(BIN_SHIFT) == 1 && GetIndex(Packed(0, BIN_SHIFT)) == 0
  {
  }
}
