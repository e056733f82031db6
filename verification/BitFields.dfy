/**
 The bit field of the buddy allocator, driver/internal/buddystructures.go:13-38: bits packed in
 64-bit words. A word is given as its 64 bits.
 */
module BitFields {

  const WORD: nat := 64

  type Word = w: seq<bool> | |w| == WORD witness seq(64, i => false)

  /** Exclusive or of two words. */
  function Xor(a: Word, b: Word): Word {
    seq(WORD, i requires 0 <= i < WORD => a[i] != b[i])
  }

  function And(a: Word, b: Word): Word {
    seq(WORD, i requires 0 <= i < WORD => a[i] && b[i])
  }

  const ZERO: Word := seq(WORD, i => false)

  /** 1 << i */
  function Bit(i: nat): Word
    requires i < WORD
  {
    seq(WORD, j => j == i)
  }

  lemma Toggled(w: Word, i: nat, j: nat)
    requires i < WORD && j < WORD
    ensures Xor(w, Bit(i))[j] == if i == j then !w[j] else w[j]
  {}

  lemma Tested(w: Word, i: nat)
    requires i < WORD
    ensures And(w, Bit(i)) != ZERO <==> w[i]
  {
    assert And(w, Bit(i))[i] == w[i] && ZERO[i] == false;
    if !w[i] {
      assert And(w, Bit(i)) == ZERO;
    }
  }

  class BitField {
    const field: array<Word>
    const size: nat

    ghost predicate Valid() {
      field.Length == size / WORD + 1
    }

    /** The bits, unpacked. */
    ghost function Bits(): (b: seq<bool>)
      requires Valid()
      reads field
      ensures |b| == size && forall k: nat | k < size :: b[k] == field[k / WORD][k % WORD]
    {
      seq(size, k requires 0 <= k < size && Valid() reads field => field[k / WORD][k % WORD])
    }

    /** newBitField */
    constructor (size: nat)
      ensures Valid() && fresh(field) && this.size == size && forall k | 0 <= k < size :: !Bits()[k]
    {
      this.size := size;
      field := new Word[size / WORD + 1](i => ZERO);
    }

    /** updateBit */
    method UpdateBit(index: nat)
      requires Valid() && index < size
      modifies field
      ensures Bits() == old(Bits())[index := !old(Bits())[index]]
    {
      hide Bit, Xor;
      var arrayIndex := index / WORD;
      var bitIndex := index % WORD;
      ghost var w := field[arrayIndex];
      field[arrayIndex] := Xor(field[arrayIndex], Bit(bitIndex));
      forall k: nat | k < size ensures Bits()[k] == if k == index then !old(Bits())[k] else old(Bits())[k] {
        if k / WORD == arrayIndex {
          Toggled(w, bitIndex, k % WORD);
        }
      }
    }

    /** checkBit */
    method CheckBit(index: nat) returns (b: bool)
      requires Valid() && index < size
      ensures b == Bits()[index]
    {
      hide Bit, And;
      var arrayIndex := index / WORD;
      var bitIndex := index % WORD;
      var bits := field[arrayIndex];
      Tested(bits, bitIndex);
      b := And(bits, Bit(bitIndex)) != ZERO;
    }
  }
}
