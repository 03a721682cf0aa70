/** The mixing of Murmur on 32-bit words: `hash_func_murmur.c`. */
module MurmurMixing {

  /** `h *= murmur_magic` */
  function Stir(h: bv32): bv32 {
    h * 0x5bd1e995
  }

  /** `k ^= k >> MURMUR_ROTATE` */
  function Spread24(k: bv32): bv32 {
    k ^ (k >> 24)
  }

  /** The macro MIX, the part for `k`. */
  function Stirred(k: bv32): bv32 {
    Stir(Spread24(Stir(k)))
  }

  function Xor(h: bv32, w: bv32): bv32 {
    h ^ w
  }

  /** The macro MIX. */
  function Mix(h: bv32, k: bv32): bv32 {
    Xor(Stir(h), Stirred(k))
  }

  function Spread13(h: bv32): bv32 {
    h ^ (h >> 13)
  }

  function Spread15(h: bv32): bv32 {
    h ^ (h >> 15)
  }

  /** `murmur_fini` */
  function Fini(h: bv32): bv32 {
    Spread15(Stir(Spread13(h)))
  }

  // ----- what undoes the steps ------------------------------------------------------------------

  /** The inverse of the odd constant. */
  function Unstir(h: bv32): bv32 {
    h * 0xe59b19bd
  }

  function Unspread24(y: bv32): bv32 {
    y ^ (y >> 24)
  }

  function Unspread15(y: bv32): bv32 {
    y ^ (y >> 15) ^ (y >> 30)
  }

  function Unspread13(y: bv32): bv32 {
    y ^ (y >> 13) ^ (y >> 26)
  }

  lemma Times(x: bv32)
    ensures Unstir(x * 0x5bd1e995) == x
  {}

  lemma StirIs(x: bv32)
    ensures Stir(x) == x * 0x5bd1e995
  {}

  lemma StirUndone(x: bv32)
    ensures Unstir(Stir(x)) == x
  {
    Times(x);
    StirIs(x);
  }

  // A shift distributes over exclusive or, and shifts add up.

  lemma Split15(x: bv32, z: bv32)
    ensures (x ^ z) >> 15 == (x >> 15) ^ (z >> 15) && (x ^ z) >> 30 == (x >> 30) ^ (z >> 30)
  {}

  lemma Split13(x: bv32, z: bv32)
    ensures (x ^ z) >> 13 == (x >> 13) ^ (z >> 13) && (x ^ z) >> 26 == (x >> 26) ^ (z >> 26)
  {}

  lemma Twice15(x: bv32)
    ensures (x >> 15) >> 15 == x >> 30 && (x >> 15) >> 30 == 0
  {}

  lemma Twice13(x: bv32)
    ensures (x >> 13) >> 13 == x >> 26 && (x >> 13) >> 26 == 0
  {}

  lemma Cancel(x: bv32, a: bv32, b: bv32)
    ensures (x ^ a) ^ (a ^ b) ^ (b ^ 0) == x
  {}

  lemma Bits15(x: bv32)
    ensures var y := x ^ (x >> 15); y ^ (y >> 15) ^ (y >> 30) == x
  {
    Split15(x, x >> 15);
    Twice15(x);
    Cancel(x, x >> 15, x >> 30);
  }

  lemma Bits13(x: bv32)
    ensures var y := x ^ (x >> 13); y ^ (y >> 13) ^ (y >> 26) == x
  {
    Split13(x, x >> 13);
    Twice13(x);
    Cancel(x, x >> 13, x >> 26);
  }

  lemma Spread24Undone(x: bv32)
    ensures Unspread24(Spread24(x)) == x
  {}

  lemma Word15(x: bv32)
    ensures Unspread15(x ^ (x >> 15)) == x
  {
    Bits15(x);
  }

  lemma Word13(x: bv32)
    ensures Unspread13(x ^ (x >> 13)) == x
  {
    Bits13(x);
  }

  lemma Spread15Is(x: bv32)
    ensures Spread15(x) == x ^ (x >> 15)
  {}

  lemma Spread13Is(x: bv32)
    ensures Spread13(x) == x ^ (x >> 13)
  {}

  lemma Spread15Undone(x: bv32)
    ensures Unspread15(Spread15(x)) == x
  {
    Word15(x);
    Spread15Is(x);
  }

  lemma Spread13Undone(x: bv32)
    ensures Unspread13(Spread13(x)) == x
  {
    Word13(x);
    Spread13Is(x);
  }

  // ----- what the mixing computes ---------------------------------------------------------------

  lemma StirZero()
    ensures Stir(0) == 0
  {}

  lemma XorZero(w: bv32)
    ensures Xor(0, w) == w
  {}

  lemma XorTwice(u: bv32, w: bv32)
    ensures Xor(Xor(u, w), w) == u
  {}

  lemma MixZero(k: bv32)
    ensures Mix(0, k) == Stirred(k)
  {
    StirZero();
    XorZero(Stirred(k));
  }

  /** A step multiplies the hash by the constant and takes the stirred word in by exclusive or. */
  lemma MixSplits(h: bv32, k: bv32)
    ensures Xor(Mix(h, k), Mix(0, k)) == h * 0x5bd1e995
  {
    MixZero(k);
    XorTwice(Stir(h), Stirred(k));
    StirIs(h);
  }

  /** From what a step makes of a word, the word comes back. */
  lemma MixUndone(k: bv32)
    ensures Unstir(Unspread24(Unstir(Mix(0, k)))) == k
  {
    MixZero(k);
    StirUndone(Spread24(Stir(k)));
    Spread24Undone(Stir(k));
    StirUndone(k);
  }

  /** And from the hash, what went into the final steps. */
  lemma FiniUndone(h: bv32)
    ensures Unspread13(Unstir(Unspread15(Fini(h)))) == h
  {
    Spread15Undone(Stir(Spread13(h)));
    StirUndone(Spread13(h));
    Spread13Undone(h);
  }

  // ----- nothing is lost ------------------------------------------------------------------------

  lemma XorLeft(u: bv32, w: bv32)
    ensures Xor(u, Xor(u, w)) == w
  {}

  lemma StirSame(x: bv32, y: bv32)
    requires Stir(x) == Stir(y)
    ensures x == y
  {
    StirUndone(x);
    StirUndone(y);
  }

  lemma MixSame(h: bv32, h': bv32, k: bv32)
    requires Mix(h, k) == Mix(h', k)
    ensures h == h'
  {
    XorTwice(Stir(h), Stirred(k));
    XorTwice(Stir(h'), Stirred(k));
    StirSame(h, h');
  }

  lemma MixWordSame(h: bv32, k: bv32, k': bv32)
    requires Mix(h, k) == Mix(h, k')
    ensures k == k'
  {
    XorLeft(Stir(h), Stirred(k));
    XorLeft(Stir(h), Stirred(k'));
    MixZero(k);
    MixZero(k');
    MixUndone(k);
    MixUndone(k');
  }

  lemma FiniSame(h: bv32, h': bv32)
    requires Fini(h) == Fini(h')
    ensures h == h'
  {
    FiniUndone(h);
    FiniUndone(h');
  }

  lemma TailSame(h: bv32, h': bv32, w: bv32)
    requires Stir(Xor(h, w)) == Stir(Xor(h', w))
    ensures h == h'
  {
    StirSame(Xor(h, w), Xor(h', w));
    XorTwice(h, w);
    XorTwice(h', w);
  }

  lemma TailWordSame(h: bv32, w: bv32, w': bv32)
    requires Stir(Xor(h, w)) == Stir(Xor(h, w'))
    ensures w == w'
  {
    StirSame(Xor(h, w), Xor(h, w'));
    XorLeft(h, w);
    XorLeft(h, w');
  }
}
