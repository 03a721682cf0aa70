/** The word operations of SHA-1: as sections 3 to 6 of FIPS 180-1 define them on 32-bit words, and
    as the program computes them in an `unsigned long` of 64 bits, seen as two 32-bit halves. */
module Sha1Words {
  import opened Sha1Rounds

  /** What a 32-bit word can do: bitwise operations, addition modulo 2^32 with the carry out of it,
      and shifts to the left (`shl`) and right (`shr`) by a number of bits. */
  datatype Half<!H> = Half(
    zero: H, xor: (H, H) -> H, and: (H, H) -> H, or: (H, H) -> H, not: H -> H, add: (H, H) -> H, carry: (H, H) -> H,
    shl: (H, bv6) -> H, shr: (H, bv6) -> H, k: nat -> H)

  // ----- FIPS 180-1 -----------------------------------------------------------------------------

  /** Section 3: the circular left shift. */
  function Rotate<H>(h: Half<H>, x: H, n: bv6): H
    requires n <= 32
  {
    h.or(h.shl(x, n), h.shr(x, 32 - n))
  }

  /** Section 5. */
  function F<H>(h: Half<H>, t: nat, x: H, y: H, z: H): H {
    if t < 20 then h.or(h.and(x, y), h.and(h.not(x), z))
    else if t < 40 then h.xor(h.xor(x, y), z)
    else if t < 60 then h.or(h.or(h.and(x, y), h.and(x, z)), h.and(y, z))
    else h.xor(h.xor(x, y), z)
  }

  function Sum<H>(h: Half<H>, s: H, f: H, e: H, x: H, k: H): H {
    h.add(h.add(h.add(h.add(s, f), e), x), k)
  }

  function Fips<H>(h: Half<H>): Ops<H> {
    Ops(h.xor, h.add, (s, f, e, x, k) => Sum(h, s, f, e, x, k), x => Rotate(h, x, 1), x => Rotate(h, x, 5), x => Rotate(h, x, 30),
        (t, x, y, z) => F(h, t, x, y, z), h.k)
  }

  // ----- 64-bit words ---------------------------------------------------------------------------

  datatype Long<H> = Long(hi: H, lo: H)

  function Xor<H>(h: Half<H>, x: Long<H>, y: Long<H>): Long<H> {
    Long(h.xor(x.hi, y.hi), h.xor(x.lo, y.lo))
  }

  function And<H>(h: Half<H>, x: Long<H>, y: Long<H>): Long<H> {
    Long(h.and(x.hi, y.hi), h.and(x.lo, y.lo))
  }

  function Or<H>(h: Half<H>, x: Long<H>, y: Long<H>): Long<H> {
    Long(h.or(x.hi, y.hi), h.or(x.lo, y.lo))
  }

  function Add<H>(h: Half<H>, x: Long<H>, y: Long<H>): Long<H> {
    Long(h.add(h.add(x.hi, y.hi), h.carry(x.lo, y.lo)), h.add(x.lo, y.lo))
  }

  function ShiftLeft<H>(h: Half<H>, x: Long<H>, n: bv6): Long<H>
    requires n <= 32
  {
    Long(h.or(h.shl(x.hi, n), h.shr(x.lo, 32 - n)), h.shl(x.lo, n))
  }

  /** `(x & 0xFFFFFFFF) >> n` */
  function LowShiftRight<H>(h: Half<H>, x: Long<H>, n: bv6): Long<H> {
    Long(h.zero, h.shr(x.lo, n))
  }

  // ----- the program's macros -------------------------------------------------------------------

  function S<H>(h: Half<H>, x: Long<H>, n: bv6): Long<H>
    requires n <= 32
  {
    Or(h, ShiftLeft(h, x, n), LowShiftRight(h, x, 32 - n))
  }

  function FLong<H>(h: Half<H>, t: nat, x: Long<H>, y: Long<H>, z: Long<H>): Long<H> {
    if t < 20 then Xor(h, z, And(h, x, Xor(h, y, z)))
    else if t < 40 then Xor(h, Xor(h, x, y), z)
    else if t < 60 then Or(h, And(h, x, y), And(h, z, Or(h, x, y)))
    else Xor(h, Xor(h, x, y), z)
  }

  /** `e += S(a,5) + F(b,c,d) + K + x` */
  function SumLong<H>(h: Half<H>, s: Long<H>, f: Long<H>, e: Long<H>, x: Long<H>, k: Long<H>): Long<H> {
    Add(h, e, Add(h, Add(h, Add(h, s, f), k), x))
  }

  function Program<H>(h: Half<H>): Ops<Long<H>> {
    Ops((x, y) => Xor(h, x, y), (x, y) => Add(h, x, y), (s, f, e, x, k) => SumLong(h, s, f, e, x, k),
        x => S(h, x, 1), x => S(h, x, 5), x => S(h, x, 30), (t, x, y, z) => FLong(h, t, x, y, z), t => Long(h.zero, h.k(t)))
  }

  // ----- the lower halves -----------------------------------------------------------------------

  /** The program's forms of Choose and Majority, and its order of summation. */
  ghost predicate ChooseLaw<H(!new)>(h: Half<H>) {
    forall x, y, z :: h.xor(z, h.and(x, h.xor(y, z))) == h.or(h.and(x, y), h.and(h.not(x), z))
  }

  ghost predicate MajorityLaw<H(!new)>(h: Half<H>) {
    forall x, y, z :: h.or(h.and(x, y), h.and(z, h.or(x, y))) == h.or(h.or(h.and(x, y), h.and(x, z)), h.and(y, z))
  }

  ghost predicate SumLaw<H(!new)>(h: Half<H>) {
    forall s, f, e, x, k :: h.add(e, h.add(h.add(h.add(s, f), k), x)) == h.add(h.add(h.add(h.add(s, f), e), x), k)
  }

  ghost predicate Laws<H(!new)>(h: Half<H>) {
    ChooseLaw(h) && MajorityLaw(h) && SumLaw(h)
  }

  ghost predicate IsLow<H(!new)>(low: Long<H> -> H) {
    forall x :: low(x) == x.lo
  }

  lemma ProgramCarries<H(!new)>(h: Half<H>, low: Long<H> -> H)
    requires Laws(h) && IsLow(low)
    ensures Carries(Program(h), Fips(h), low)
  {}

  /** `sha1_process` in 64-bit words: the lower halves are those of FIPS 180-1, whatever the upper
      halves were. */
  method ProcessLong<H(!new)>(h: Half<H>, r: Regs<Long<H>>, block: seq<Long<H>>, ghost low: Long<H> -> H) returns (r': Regs<Long<H>>)
    requires |block| == 16 && Laws(h) && IsLow(low)
    ensures LowRegs(low, r') == Compress(Fips(h), LowRegs(low, r), LowAll(low, block))
  {
    ProgramCarries(h, low);
    LowCompress(Program(h), Fips(h), low, r, block);
    r' := Process(Program(h), r, block);
  }

  // ----- words of 32 bits -----------------------------------------------------------------------

  function Xor32(x: bv32, y: bv32): bv32 { x ^ y }
  function And32(x: bv32, y: bv32): bv32 { x & y }
  function Or32(x: bv32, y: bv32): bv32 { x | y }
  function Not32(x: bv32): bv32 { !x }
  function Add32(x: bv32, y: bv32): bv32 { x + y }
  function Carry32(x: bv32, y: bv32): bv32 { if x + y < x then 1 else 0 }
  function Left32(x: bv32, n: bv6): bv32 { if n <= 32 then x << n else 0 }
  function Right32(x: bv32, n: bv6): bv32 { if n <= 32 then x >> n else 0 }

  function K(t: nat): bv32 {
    if t < 20 then 0x5A827999 else if t < 40 then 0x6ED9EBA1 else if t < 60 then 0x8F1BBCDC else 0xCA62C1D6
  }

  const WORD: Half<bv32> := Half(0, Xor32, And32, Or32, Not32, Add32, Carry32, Left32, Right32, K)

  lemma XorIs(x: bv32, y: bv32)
    ensures Xor32(x, y) == x ^ y
  {}

  lemma AndIs(x: bv32, y: bv32)
    ensures And32(x, y) == x & y
  {}

  lemma OrIs(x: bv32, y: bv32)
    ensures Or32(x, y) == x | y
  {}

  lemma NotIs(x: bv32)
    ensures Not32(x) == !x
  {}

  // Equations between words, with the parts of each side named.

  lemma ChooseParts(x: bv32, y: bv32, z: bv32, a: bv32, b: bv32, c: bv32, d: bv32, e: bv32, n: bv32)
    requires a == y ^ z && b == x & a && c == z ^ b && d == x & y && n == !x && e == n & z
    ensures c == d | e
  {}

  lemma MajorityParts(x: bv32, y: bv32, z: bv32, xy: bv32, xz: bv32, yz: bv32, o: bv32, a: bv32, p: bv32)
    requires xy == x & y && xz == x & z && yz == y & z && o == x | y && a == z & o && p == xy | xz
    ensures xy | a == p | yz
  {}

  lemma ChooseBits(x: bv32, y: bv32, z: bv32)
    ensures Xor32(z, And32(x, Xor32(y, z))) == Or32(And32(x, y), And32(Not32(x), z))
  {
    var a, d, n := Xor32(y, z), And32(x, y), Not32(x);
    var b, e := And32(x, a), And32(n, z);
    var c := Xor32(z, b);
    XorIs(y, z);
    AndIs(x, y);
    NotIs(x);
    AndIs(x, a);
    AndIs(n, z);
    XorIs(z, b);
    ChooseParts(x, y, z, a, b, c, d, e, n);
    OrIs(d, e);
  }

  lemma MajorityBits(x: bv32, y: bv32, z: bv32)
    ensures Or32(And32(x, y), And32(z, Or32(x, y))) == Or32(Or32(And32(x, y), And32(x, z)), And32(y, z))
  {
    var xy, xz, yz, o := And32(x, y), And32(x, z), And32(y, z), Or32(x, y);
    var a, p := And32(z, o), Or32(xy, xz);
    AndIs(x, y);
    AndIs(x, z);
    AndIs(y, z);
    OrIs(x, y);
    AndIs(z, o);
    OrIs(xy, xz);
    MajorityParts(x, y, z, xy, xz, yz, o, a, p);
    OrIs(xy, a);
    OrIs(p, yz);
  }

  lemma Add32Is(x: bv32, y: bv32)
    ensures Add32(x, y) == x + y
  {}

  lemma SumAssoc(x: bv32, y: bv32, z: bv32)
    ensures Add32(x + y, z) == Add32(x, y + z)
  {}

  lemma Add32Assoc(x: bv32, y: bv32, z: bv32)
    ensures Add32(Add32(x, y), z) == Add32(x, Add32(y, z))
  {
    SumAssoc(x, y, z);
    Add32Is(x, y);
    Add32Is(y, z);
  }

  lemma Add32Comm(x: bv32, y: bv32)
    ensures Add32(x, y) == Add32(y, x)
  {
    Add32Is(x, y);
    Add32Is(y, x);
  }

  lemma Add32Swap(p: bv32, x: bv32, y: bv32)
    ensures Add32(Add32(p, x), y) == Add32(Add32(p, y), x)
  {
    Add32Assoc(p, x, y);
    Add32Assoc(p, y, x);
    Add32Comm(x, y);
  }

  lemma SumOrder(s: bv32, f: bv32, e: bv32, x: bv32, k: bv32)
    ensures Add32(e, Add32(Add32(Add32(s, f), k), x)) == Add32(Add32(Add32(Add32(s, f), e), x), k)
  {
    var p := Add32(s, f);
    Add32Comm(e, Add32(Add32(p, k), x));
    Add32Swap(p, k, x);
    Add32Swap(Add32(p, x), k, e);
    Add32Swap(p, x, e);
  }

  lemma WordChooses()
    ensures ChooseLaw(WORD)
  {
    forall x: bv32, y: bv32, z: bv32
      ensures WORD.xor(z, WORD.and(x, WORD.xor(y, z))) == WORD.or(WORD.and(x, y), WORD.and(WORD.not(x), z))
    {
      ChooseBits(x, y, z);
    }
  }

  lemma WordMajority()
    ensures MajorityLaw(WORD)
  {
    forall x: bv32, y: bv32, z: bv32
      ensures WORD.or(WORD.and(x, y), WORD.and(z, WORD.or(x, y))) == WORD.or(WORD.or(WORD.and(x, y), WORD.and(x, z)), WORD.and(y, z))
    {
      MajorityBits(x, y, z);
    }
  }

  lemma WordSums()
    ensures SumLaw(WORD)
  {
    forall s: bv32, f: bv32, e: bv32, x: bv32, k: bv32
      ensures WORD.add(e, WORD.add(WORD.add(WORD.add(s, f), k), x)) == WORD.add(WORD.add(WORD.add(WORD.add(s, f), e), x), k)
    {
      SumOrder(s, f, e, x, k);
    }
  }

  lemma WordLaws()
    ensures Laws(WORD)
  {
    WordChooses();
    WordMajority();
    WordSums();
  }
}
