/** What the words of SHA-1 are, written out: the schedule, a round, and the constants of FIPS 180-1. */
module Sha1Values {
  import opened Sha1Rounds
  import opened Sha1Words
  import opened Sha1Stream

  // ----- the circular left shift, for the three amounts that are used ---------------------------

  lemma Shifts1(x: bv32)
    ensures Left32(x, 1) == x << 1 && Right32(x, 31) == x >> 31
  {}

  lemma Shifts5(x: bv32)
    ensures Left32(x, 5) == x << 5 && Right32(x, 27) == x >> 27
  {}

  lemma Shifts30(x: bv32)
    ensures Left32(x, 30) == x << 30 && Right32(x, 2) == x >> 2
  {}

  lemma Rotate1(x: bv32)
    ensures Rotate(WORD, x, 1) == (x << 1) | (x >> 31)
  {
    Shifts1(x);
    OrIs(x << 1, x >> 31);
  }

  lemma Rotate5(x: bv32)
    ensures Rotate(WORD, x, 5) == (x << 5) | (x >> 27)
  {
    Shifts5(x);
    OrIs(x << 5, x >> 27);
  }

  lemma Rotate30(x: bv32)
    ensures Rotate(WORD, x, 30) == (x << 30) | (x >> 2)
  {
    Shifts30(x);
    OrIs(x << 30, x >> 2);
  }

  // ----- the schedule ---------------------------------------------------------------------------

  lemma XorParts(p: bv32, q: bv32, r: bv32, s: bv32, a: bv32, b: bv32)
    requires a == p ^ q && b == a ^ r
    ensures b ^ s == p ^ q ^ r ^ s
  {}

  lemma Xors(p: bv32, q: bv32, r: bv32, s: bv32)
    ensures Xor32(Xor32(Xor32(p, q), r), s) == p ^ q ^ r ^ s
  {
    var a := Xor32(p, q);
    var b := Xor32(a, r);
    XorIs(p, q);
    XorIs(a, r);
    XorIs(b, s);
    XorParts(p, q, r, s, a, b);
  }

  lemma ScheduleOf(block: seq<bv32>, t: nat, p: bv32, q: bv32, r: bv32, s: bv32)
    requires |block| == 16 && t >= 16
    requires p == Schedule(Fips(WORD), block, t - 3) && q == Schedule(Fips(WORD), block, t - 8)
    requires r == Schedule(Fips(WORD), block, t - 14) && s == Schedule(Fips(WORD), block, t - 16)
    ensures Schedule(Fips(WORD), block, t) == Rotate(WORD, Xor32(Xor32(Xor32(p, q), r), s), 1)
  {}

  /** From word 16 on: the exclusive or of four words before, shifted circularly by one. */
  lemma ScheduleWords(block: seq<bv32>, t: nat, p: bv32, q: bv32, r: bv32, s: bv32, x: bv32)
    requires |block| == 16 && t >= 16
    requires p == Schedule(Fips(WORD), block, t - 3) && q == Schedule(Fips(WORD), block, t - 8)
    requires r == Schedule(Fips(WORD), block, t - 14) && s == Schedule(Fips(WORD), block, t - 16)
    requires x == p ^ q ^ r ^ s
    ensures Schedule(Fips(WORD), block, t) == (x << 1) | (x >> 31)
  {
    ScheduleOf(block, t, p, q, r, s);
    Xors(p, q, r, s);
    Rotate1(x);
  }

  // ----- a round --------------------------------------------------------------------------------

  lemma ChooseIs(x: bv32, y: bv32, z: bv32, f: bv32)
    requires f == (x & y) | (!x & z)
    ensures Or32(And32(x, y), And32(Not32(x), z)) == f
  {
    var d, n := And32(x, y), Not32(x);
    var e := And32(n, z);
    AndIs(x, y);
    NotIs(x);
    AndIs(n, z);
    OrIs(d, e);
    ChooseNamed(x, y, z, d, n, e, f);
  }

  lemma ChooseNamed(x: bv32, y: bv32, z: bv32, d: bv32, n: bv32, e: bv32, f: bv32)
    requires d == x & y && n == !x && e == n & z && f == (x & y) | (!x & z)
    ensures d | e == f
  {}

  lemma MajorityIs(x: bv32, y: bv32, z: bv32, f: bv32)
    requires f == (x & y) | (x & z) | (y & z)
    ensures Or32(Or32(And32(x, y), And32(x, z)), And32(y, z)) == f
  {
    var xy, xz, yz := And32(x, y), And32(x, z), And32(y, z);
    var p := Or32(xy, xz);
    AndIs(x, y);
    AndIs(x, z);
    AndIs(y, z);
    OrIs(xy, xz);
    OrIs(p, yz);
    MajorityNamed(x, y, z, xy, xz, yz, p, f);
  }

  lemma MajorityNamed(x: bv32, y: bv32, z: bv32, xy: bv32, xz: bv32, yz: bv32, p: bv32, f: bv32)
    requires xy == x & y && xz == x & z && yz == y & z && p == xy | xz && f == (x & y) | (x & z) | (y & z)
    ensures p | yz == f
  {}

  lemma ParityIs(x: bv32, y: bv32, z: bv32, f: bv32)
    requires f == x ^ y ^ z
    ensures Xor32(Xor32(x, y), z) == f
  {
    var a := Xor32(x, y);
    XorIs(x, y);
    XorIs(a, z);
    ParityNamed(x, y, z, a, f);
  }

  lemma ParityNamed(x: bv32, y: bv32, z: bv32, a: bv32, f: bv32)
    requires a == x ^ y && f == x ^ y ^ z
    ensures a ^ z == f
  {}

  lemma FChoose(t: nat, x: bv32, y: bv32, z: bv32)
    requires t < 20
    ensures F(WORD, t, x, y, z) == Or32(And32(x, y), And32(Not32(x), z))
  {}

  lemma FMajority(t: nat, x: bv32, y: bv32, z: bv32)
    requires 40 <= t < 60
    ensures F(WORD, t, x, y, z) == Or32(Or32(And32(x, y), And32(x, z)), And32(y, z))
  {}

  lemma FParity(t: nat, x: bv32, y: bv32, z: bv32)
    requires 20 <= t < 40 || 60 <= t
    ensures F(WORD, t, x, y, z) == Xor32(Xor32(x, y), z)
  {}

  /** The logical functions: choose, parity, majority and parity. */
  lemma Choose(t: nat, x: bv32, y: bv32, z: bv32, f: bv32)
    requires t < 20 && f == (x & y) | (!x & z)
    ensures F(WORD, t, x, y, z) == f
  {
    FChoose(t, x, y, z);
    ChooseIs(x, y, z, f);
  }

  lemma Majority(t: nat, x: bv32, y: bv32, z: bv32, f: bv32)
    requires 40 <= t < 60 && f == (x & y) | (x & z) | (y & z)
    ensures F(WORD, t, x, y, z) == f
  {
    FMajority(t, x, y, z);
    MajorityIs(x, y, z, f);
  }

  lemma Parity(t: nat, x: bv32, y: bv32, z: bv32, f: bv32)
    requires (20 <= t < 40 || 60 <= t) && f == x ^ y ^ z
    ensures F(WORD, t, x, y, z) == f
  {
    FParity(t, x, y, z);
    ParityIs(x, y, z, f);
  }

  lemma SumIs(s: bv32, f: bv32, e: bv32, x: bv32, k: bv32, s1: bv32, s2: bv32, s3: bv32)
    requires s1 == s + f && s2 == s1 + e && s3 == s2 + x
    ensures Sum(WORD, s, f, e, x, k) == s3 + k
  {
    Add32Is(s, f);
    Add32Is(s1, e);
    Add32Is(s2, x);
    Add32Is(s3, k);
  }

  lemma RoundOf(t: nat, r: Regs<bv32>, x: bv32)
    ensures Round(Fips(WORD), t, r, x)
         == Regs(Sum(WORD, Rotate(WORD, r.a, 5), F(WORD, t, r.b, r.c, r.d), r.e, x, K(t)), r.a, Rotate(WORD, r.b, 30), r.c, r.d)
  {}

  /** A round: the first register gets the sum of itself shifted circularly by five, the logical
      function of the next three, the fifth one, the word and the constant; the others move down, the
      second one shifted circularly by thirty. */
  lemma RoundWords(t: nat, r: Regs<bv32>, x: bv32, a: bv32, b: bv32, f: bv32, s1: bv32, s2: bv32, s3: bv32, s4: bv32)
    requires a == (r.a << 5) | (r.a >> 27) && b == (r.b << 30) | (r.b >> 2) && f == F(WORD, t, r.b, r.c, r.d)
    requires s1 == a + f && s2 == s1 + r.e && s3 == s2 + x && s4 == s3 + K(t)
    ensures Round(Fips(WORD), t, r, x) == Regs(s4, r.a, b, r.c, r.d)
  {
    Rotate5(r.a);
    Rotate30(r.b);
    SumIs(a, f, r.e, x, K(t), s1, s2, s3);
    RoundOf(t, r, x);
  }

  /** The compression function is eighty rounds, added to the words before. */
  lemma CompressWords(h: Regs<bv32>, block: seq<bv32>, n: nat, r: Regs<bv32>)
    requires |block| == 16 && n == 80 && r == Rounds(Fips(WORD), block, h, n)
    ensures Compress(Fips(WORD), h, block) == Regs(h.a + r.a, h.b + r.b, h.c + r.c, h.d + r.d, h.e + r.e)
  {
    assert NumberOfRounds() == n;
    CompressOf(h, block, r);
    Add32Is(h.a, r.a);
    Add32Is(h.b, r.b);
    Add32Is(h.c, r.c);
    Add32Is(h.d, r.d);
    Add32Is(h.e, r.e);
  }

  lemma CompressOf(h: Regs<bv32>, block: seq<bv32>, r: Regs<bv32>)
    requires |block| == 16 && r == Rounds(Fips(WORD), block, h, NumberOfRounds())
    ensures Compress(Fips(WORD), h, block) == Regs(Add32(h.a, r.a), Add32(h.b, r.b), Add32(h.c, r.c), Add32(h.d, r.d), Add32(h.e, r.e))
  {}

  // ----- constants ------------------------------------------------------------------------------

  /** The constants are 2^30 times the square roots of 2, 3, 5 and 10, rounded down. */
  lemma Constants(t: nat)
    requires t < 80
    ensures var k, n := K(t) as int, if t < 20 then 2 else if t < 40 then 3 else if t < 60 then 5 else 10;
      k * k <= n * 0x1000_0000_0000_0000 < (k + 1) * (k + 1)
  {}

  lemma InitialWords()
    ensures INITIAL.a == 0x67452301 && INITIAL.b == 0xEFCDAB89 && INITIAL.c == 0x98BADCFE && INITIAL.d == 0x10325476 && INITIAL.e == 0xC3D2E1F0
  {}

  // ----- words and bytes ------------------------------------------------------------------------

  /** The first byte is the highest. */
  lemma FirstHighest()
    ensures BigEndian([0x12, 0x34, 0x56, 0x78]) == 0x12345678 && WordBytes(0x12345678) == [0x12, 0x34, 0x56, 0x78]
  {}

  /** In the length field, one more digit at the lower end moves the others up. */
  lemma LengthField(m: nat, d: nat)
    requires d < 256
    ensures Bytes4(256 * m + d) == Bytes4(m)[1..] + [Digit(d)]
  {
    var n := 256 * m + d;
    assert n / 0x100 == m && n / 0x1_0000 == m / 0x100 && n / 0x100_0000 == m / 0x1_0000;
    assert n % 256 == d % 256;
  }

  function Joined(b0: bv8, b1: bv8, b2: bv8, b3: bv8): bv32 {
    ((b0 as bv32) << 24) | ((b1 as bv32) << 16) | ((b2 as bv32) << 8) | (b3 as bv32)
  }

  lemma JoinedBytes(b0: bv8, b1: bv8, b2: bv8, b3: bv8)
    ensures var w := Joined(b0, b1, b2, b3);
      ((w >> 24) & 0xFF) as bv8 == b0 && ((w >> 16) & 0xFF) as bv8 == b1 && ((w >> 8) & 0xFF) as bv8 == b2 && (w & 0xFF) as bv8 == b3
  {}

  lemma BytesBack(b: seq<bv8>)
    requires |b| == 4
    ensures WordBytes(BigEndian(b)) == b
  {
    JoinedBytes(b[0], b[1], b[2], b[3]);
  }
}
