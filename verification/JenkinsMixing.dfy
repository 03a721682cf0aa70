/** The mixing of Jenkins' lookup3 on 32-bit words: `hash_func_jenkins3.c`. */
module JenkinsMixing {

  datatype Trip<W> = Trip(a: W, b: W, c: W)

  function Add(x: bv32, y: bv32): bv32 {
    x + y
  }

  function Sub(x: bv32, y: bv32): bv32 {
    x - y
  }

  function Xor(x: bv32, y: bv32): bv32 {
    x ^ y
  }

  /** `rot(x,k)` */
  function Rot(x: bv32, k: bv6): bv32
    requires k <= 32
  {
    (x << k) | (x >> (32 - k))
  }

  /** One line of `mix`: `p -= r; p ^= rot(r,k); r += q`, for the registers in the roles p, q, r. */
  function Line(p: bv32, q: bv32, r: bv32, k: bv6): (bv32, bv32)
    requires k <= 32
  {
    (Xor(Sub(p, r), Rot(r, k)), Add(r, q))
  }

  function LineA(t: Trip<bv32>, k: bv6): Trip<bv32> requires k <= 32 { var (p, r) := Line(t.a, t.b, t.c, k); Trip(p, t.b, r) }
  function LineB(t: Trip<bv32>, k: bv6): Trip<bv32> requires k <= 32 { var (p, r) := Line(t.b, t.c, t.a, k); Trip(r, p, t.c) }
  function LineC(t: Trip<bv32>, k: bv6): Trip<bv32> requires k <= 32 { var (p, r) := Line(t.c, t.a, t.b, k); Trip(t.a, r, p) }

  /** The macro mix. */
  function Mix(t: Trip<bv32>): Trip<bv32> {
    LineC(LineB(LineA(LineC(LineB(LineA(t, 4), 6), 8), 16), 19), 4)
  }

  /** `c ^= b; c -= rot(b,k)` and the like. */
  function Fold(p: bv32, q: bv32, k: bv6): bv32
    requires k <= 32
  {
    Sub(Xor(p, q), Rot(q, k))
  }

  /** The macro final. */
  function Final(t: Trip<bv32>): Trip<bv32> {
    var c1 := Fold(t.c, t.b, 14);
    var a1 := Fold(t.a, c1, 11);
    var b1 := Fold(t.b, a1, 25);
    var c2 := Fold(c1, b1, 16);
    var a2 := Fold(a1, c2, 4);
    var b2 := Fold(b1, a2, 14);
    Trip(a2, b2, Fold(c2, b2, 24))
  }

  // ----- what undoes the steps ------------------------------------------------------------------

  lemma AddIs(x: bv32, y: bv32)
    ensures Add(x, y) == x + y
  {}

  lemma SubIs(x: bv32, y: bv32)
    ensures Sub(x, y) == x - y
  {}

  lemma AddOver(x: bv32, y: bv32)
    ensures Add(x - y, y) == x && Sub(x + y, y) == x
  {}

  lemma SubAdd(x: bv32, y: bv32)
    ensures Add(Sub(x, y), y) == x && Sub(Add(x, y), y) == x
  {
    AddIs(x, y);
    SubIs(x, y);
    AddOver(x, y);
  }

  lemma XorXor(x: bv32, y: bv32)
    ensures Xor(Xor(x, y), y) == x
  {}

  function Unline(p: bv32, q: bv32, r: bv32, k: bv6): (bv32, bv32)
    requires k <= 32
  {
    var r0 := Sub(r, q);
    (Add(Xor(p, Rot(r0, k)), r0), r0)
  }

  lemma LineInverse(p: bv32, q: bv32, r: bv32, k: bv6)
    requires k <= 32
    ensures var (p1, r1) := Line(p, q, r, k); Unline(p1, q, r1, k) == (p, r)
    ensures var (p1, r1) := Unline(p, q, r, k); Line(p1, q, r1, k) == (p, r)
  {
    SubAdd(r, q);
    SubAdd(p, r);
    XorXor(Sub(p, r), Rot(r, k));
    var r0 := Sub(r, q);
    SubAdd(Xor(p, Rot(r0, k)), r0);
    XorXor(p, Rot(r0, k));
  }

  function UnlineA(t: Trip<bv32>, k: bv6): Trip<bv32> requires k <= 32 { var (p, r) := Unline(t.a, t.b, t.c, k); Trip(p, t.b, r) }
  function UnlineB(t: Trip<bv32>, k: bv6): Trip<bv32> requires k <= 32 { var (p, r) := Unline(t.b, t.c, t.a, k); Trip(r, p, t.c) }
  function UnlineC(t: Trip<bv32>, k: bv6): Trip<bv32> requires k <= 32 { var (p, r) := Unline(t.c, t.a, t.b, k); Trip(t.a, r, p) }

  lemma LineAInverse(t: Trip<bv32>, k: bv6)
    requires k <= 32
    ensures UnlineA(LineA(t, k), k) == t && LineA(UnlineA(t, k), k) == t
  {
    LineInverse(t.a, t.b, t.c, k);
  }

  lemma LineBInverse(t: Trip<bv32>, k: bv6)
    requires k <= 32
    ensures UnlineB(LineB(t, k), k) == t && LineB(UnlineB(t, k), k) == t
  {
    LineInverse(t.b, t.c, t.a, k);
  }

  lemma LineCInverse(t: Trip<bv32>, k: bv6)
    requires k <= 32
    ensures UnlineC(LineC(t, k), k) == t && LineC(UnlineC(t, k), k) == t
  {
    LineInverse(t.c, t.a, t.b, k);
  }

  function Unmix(t: Trip<bv32>): Trip<bv32> {
    UnlineA(UnlineB(UnlineC(UnlineA(UnlineB(UnlineC(t, 4), 19), 16), 8), 6), 4)
  }

  /** Mixing is reversible: it is a bijection on triples of words. */
  lemma MixBijective(t: Trip<bv32>)
    ensures Unmix(Mix(t)) == t && Mix(Unmix(t)) == t
  {
    var t1 := LineA(t, 4);
    var t2 := LineB(t1, 6);
    var t3 := LineC(t2, 8);
    var t4 := LineA(t3, 16);
    var t5 := LineB(t4, 19);
    LineAInverse(t, 4);
    LineBInverse(t1, 6);
    LineCInverse(t2, 8);
    LineAInverse(t3, 16);
    LineBInverse(t4, 19);
    LineCInverse(t5, 4);
    var u5 := UnlineC(t, 4);
    var u4 := UnlineB(u5, 19);
    var u3 := UnlineA(u4, 16);
    var u2 := UnlineC(u3, 8);
    var u1 := UnlineB(u2, 6);
    LineCInverse(t, 4);
    LineBInverse(u5, 19);
    LineAInverse(u4, 16);
    LineCInverse(u3, 8);
    LineBInverse(u2, 6);
    LineAInverse(u1, 4);
  }

  /** So are the final steps, before the two registers that are not given back are dropped. */
  function Unfold(p: bv32, q: bv32, k: bv6): bv32
    requires k <= 32
  {
    Xor(Add(p, Rot(q, k)), q)
  }

  lemma FoldInverse(p: bv32, q: bv32, k: bv6)
    requires k <= 32
    ensures Unfold(Fold(p, q, k), q, k) == p
  {
    SubAdd(Xor(p, q), Rot(q, k));
    XorXor(p, q);
  }

  function Unfinal(t: Trip<bv32>): Trip<bv32> {
    var c2 := Unfold(t.c, t.b, 24);
    var b1 := Unfold(t.b, t.a, 14);
    var a1 := Unfold(t.a, c2, 4);
    var c1 := Unfold(c2, b1, 16);
    var b0 := Unfold(b1, a1, 25);
    var a0 := Unfold(a1, c1, 11);
    Trip(a0, b0, Unfold(c1, b0, 14))
  }

  lemma FinalUndone(t: Trip<bv32>)
    ensures Unfinal(Final(t)) == t
  {
    var c1 := Fold(t.c, t.b, 14);
    var a1 := Fold(t.a, c1, 11);
    var b1 := Fold(t.b, a1, 25);
    var c2 := Fold(c1, b1, 16);
    var a2 := Fold(a1, c2, 4);
    var b2 := Fold(b1, a2, 14);
    FoldInverse(c2, b2, 24);
    FoldInverse(b1, a2, 14);
    FoldInverse(a1, c2, 4);
    FoldInverse(c1, b1, 16);
    FoldInverse(t.b, a1, 25);
    FoldInverse(t.a, c1, 11);
    FoldInverse(t.c, t.b, 14);
  }
}
