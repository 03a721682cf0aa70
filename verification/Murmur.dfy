/** The Murmur hash: the plain four-byte loop, and the path for keys that are not aligned, which
    shifts aligned words through a register. `hash_func_murmur.c`, on a little-endian machine. */
module Murmur {
  import opened MurmurMixing

  // ----- registers, byte by byte ----------------------------------------------------------------

  /** A 32-bit register as its four bytes, the lowest first: the code shifts registers by whole
      bytes only. Nothing here depends on what a byte is, but that `or` with zero is neutral. */
  datatype Reg<B> = Reg(b0: B, b1: B, b2: B, b3: B)

  datatype Bytes<!B> = Bytes(zero: B, or: (B, B) -> B)

  ghost predicate Neutral<B(!new)>(a: Bytes<B>) {
    forall b :: a.or(b, a.zero) == b && a.or(a.zero, b) == b
  }

  function ShiftRight<B>(a: Bytes<B>, r: Reg<B>, bytes: nat): Reg<B>
    requires 1 <= bytes <= 3
  {
    if bytes == 1 then Reg(r.b1, r.b2, r.b3, a.zero)
    else if bytes == 2 then Reg(r.b2, r.b3, a.zero, a.zero)
    else Reg(r.b3, a.zero, a.zero, a.zero)
  }

  function ShiftLeft<B>(a: Bytes<B>, r: Reg<B>, bytes: nat): Reg<B>
    requires 1 <= bytes <= 3
  {
    if bytes == 1 then Reg(a.zero, r.b0, r.b1, r.b2)
    else if bytes == 2 then Reg(a.zero, a.zero, r.b0, r.b1)
    else Reg(a.zero, a.zero, a.zero, r.b0)
  }

  function Or<B>(a: Bytes<B>, r: Reg<B>, q: Reg<B>): Reg<B> {
    Reg(a.or(r.b0, q.b0), a.or(r.b1, q.b1), a.or(r.b2, q.b2), a.or(r.b3, q.b3))
  }

  function At<B>(a: Bytes<B>, s: seq<B>, i: nat): B {
    if i < |s| then s[i] else a.zero
  }

  /** The register that up to four bytes make, the first one lowest. */
  function Little<B>(a: Bytes<B>, s: seq<B>): Reg<B> {
    Reg(At(a, s, 0), At(a, s, 1), At(a, s, 2), At(a, s, 3))
  }

  // ----- the hash, for any mixing steps ---------------------------------------------------------

  /** The value of a register, and what to do with a full word, with the word that the last one to
      three bytes make, after those, and at the end. */
  datatype Steps<!B, !W, !H> = Steps(value: Reg<B> -> W, mix: (H, W) -> H, xor: (H, W) -> H, stir: H -> H, fini: H -> H)

  /** The hash: word by word, then the tail. */
  function Hash<B, W, H>(a: Bytes<B>, f: Steps<B, W, H>, s: seq<B>, h: H): H {
    if |s| >= 4 then Hash(a, f, s[4..], f.mix(h, f.value(Little(a, s[..4]))))
    else if |s| > 0 then f.fini(f.stir(f.xor(h, f.value(Little(a, s)))))
    else f.fini(h)
  }

  /** What the shifts put together: the upper bytes of the register, then the lower ones of the
      word that follows. */
  function Joined<B>(a: Bytes<B>, t: Reg<B>, d: Reg<B>, align: nat): Reg<B>
    requires 1 <= align <= 3
  {
    Or(a, ShiftRight(a, t, align), ShiftLeft(a, d, 4 - align))
  }

  /** The register holds the first `4 - align` bytes of `s` at its upper end. */
  ghost predicate Carries<B(!new)>(a: Bytes<B>, t: Reg<B>, s: seq<B>, align: nat)
    requires 1 <= align <= 3
  {
    |s| >= 4 - align && ShiftRight(a, t, align) == Little(a, s[..4 - align])
  }

  /** With the bytes that follow, that makes the next word, or what there is of it. */
  lemma JoinedWord<B(!new)>(a: Bytes<B>, t: Reg<B>, s: seq<B>, align: nat, d: seq<B>)
    requires Neutral(a) && 1 <= align <= 3 && Carries(a, t, s, align) && |s| >= 4 - align
    requires d <= s[4 - align..] && (|d| >= align || |d| == |s| - (4 - align))
    ensures Joined(a, t, Little(a, d), align) == Little(a, s[..if |s| < 4 then |s| else 4])
  {
    var n := if |s| < 4 then |s| else 4;
    assert forall i :: 0 <= i < |d| ==> d[i] == s[4 - align + i];
    assert forall i :: 0 <= i < 4 - align ==> s[..4 - align][i] == s[i];
    assert forall i :: 0 <= i < n ==> s[..n][i] == s[i];
  }

  /** A whole word read becomes the register for the next round. */
  lemma NextCarries<B(!new)>(a: Bytes<B>, s: seq<B>, align: nat)
    requires 1 <= align <= 3 && |s| >= 8 - align
    ensures Carries(a, Little(a, s[4 - align..8 - align]), s[4..], align)
  {
    var d := s[4 - align..8 - align];
    assert forall i :: 0 <= i < 4 ==> d[i] == s[4 - align + i];
    var u := s[4..][..4 - align];
    assert forall i :: 0 <= i < |u| ==> u[i] == s[4 + i];
  }

  /** The register before the first round. */
  function Start<B>(a: Bytes<B>, s: seq<B>, align: nat): Reg<B>
    requires 1 <= align <= 3
  {
    ShiftLeft(a, Little(a, s), align)
  }

  lemma StartCarries<B(!new)>(a: Bytes<B>, s: seq<B>, align: nat)
    requires 1 <= align <= 3 && |s| >= 4 - align
    ensures Carries(a, Start(a, s[..4 - align], align), s, align)
  {}

  // ----- the program, on machine words ----------------------------------------------------------

  /** What the program does with the bytes, on machine words: `load` puts up to four of them
      together, `up` shifts left by eight times `align`, `join` is `(t >> sr) | (d << sl)`, and
      `fold` takes in the last bytes one by one. */
  datatype Machine<!B, !W, !H> = Machine(
    load: seq<B> -> W, up: (W, nat) -> W, join: (W, W, nat) -> W, fold: (H, seq<B>) -> H)

  /** The operations on words are those on the registers whose values the words are. */
  ghost predicate Implements<B(!new), W(!new), H(!new)>(a: Bytes<B>, f: Steps<B, W, H>, m: Machine<B, W, H>) {
    && (forall s {:trigger m.load(s)} :: |s| <= 4 ==> m.load(s) == f.value(Little(a, s)))
    && (forall t, n: nat {:trigger m.up(f.value(t), n)} :: 1 <= n <= 3 ==> m.up(f.value(t), n) == f.value(ShiftLeft(a, t, n)))
    && (forall t, d, n: nat {:trigger m.join(f.value(t), f.value(d), n)} :: 1 <= n <= 3 ==>
          m.join(f.value(t), f.value(d), n) == f.value(Joined(a, t, d, n)))
    && (forall h, s {:trigger m.fold(h, s)} :: 1 <= |s| <= 3 ==> m.fold(h, s) == f.xor(h, f.value(Little(a, s))))
  }

  /** The loop of `murmur_hash2`. */
  method Plain<B(!new), W(!new), H(!new)>(a: Bytes<B>, f: Steps<B, W, H>, m: Machine<B, W, H>, data: seq<B>, seed: H)
    returns (r: H)
    requires Implements(a, f, m)
    ensures r == Hash(a, f, data, seed)
  {
    var h, i := seed, 0;
    while |data| - i >= 4
      invariant 0 <= i <= |data| && Hash(a, f, data[i..], h) == Hash(a, f, data, seed)
    {
      assert data[i..][..4] == data[i..i + 4] && data[i..][4..] == data[i + 4..];
      h := f.mix(h, m.load(data[i..i + 4]));
      i := i + 4;
    }
    if |data| - i > 0 {
      h := f.stir(m.fold(h, data[i..]));
    }
    r := f.fini(h);
  }

  /** The end of `murmur_hash_unaligned`: fewer than four bytes are left to read at `data`. */
  method Leftover<B(!new), W(!new), H(!new)>(a: Bytes<B>, f: Steps<B, W, H>, m: Machine<B, W, H>,
                                            t: W, data: seq<B>, align: nat, ghost reg: Reg<B>, ghost s: seq<B>, h0: H)
    returns (r: H)
    requires Implements(a, f, m) && t == f.value(reg)
    requires Neutral(a) && 1 <= align <= 3 && Carries(a, reg, s, align) && data == s[4 - align..] && |data| < 4
    ensures r == Hash(a, f, s, h0)
  {
    var h := h0;
    if |data| >= align {
      var d := m.load(data[..align]);
      JoinedWord(a, reg, s, align, data[..align]);
      h := f.mix(h, m.join(t, d, align));
      var rest := data[align..];
      assert rest == s[4..];
      if |rest| > 0 {
        h := f.stir(m.fold(h, rest));
      }
    } else {
      var d := m.load(data);
      JoinedWord(a, reg, s, align, data);
      assert s[..|s|] == s;
      h := f.stir(f.xor(h, m.join(t, d, align)));
    }
    r := f.fini(h);
  }

  /** `murmur_hash_unaligned`: the same hash as the plain loop, for every string of at least four
      bytes, every misalignment and every starting value. */
  method Unaligned<B(!new), W(!new), H(!new)>(a: Bytes<B>, f: Steps<B, W, H>, m: Machine<B, W, H>,
                                             s: seq<B>, align: nat, seed: H)
    returns (r: H)
    requires Implements(a, f, m) && Neutral(a) && 1 <= align <= 3 && |s| >= 4
    ensures r == Hash(a, f, s, seed)
  {
    var h := seed;
    ghost var reg := Start(a, s[..4 - align], align);
    var t := m.up(m.load(s[..4 - align]), align);
    StartCarries(a, s, align);
    var i := 4 - align;
    ghost var o := 0;
    assert s[0..] == s;
    while |s| - i >= 4
      invariant o + 4 - align == i <= |s| && t == f.value(reg) && Carries(a, reg, s[o..], align)
      invariant Hash(a, f, s[o..], h) == Hash(a, f, s, seed)
    {
      var d := m.load(s[i..i + 4]);
      ghost var u := s[o..];
      assert u[4 - align..8 - align] == s[i..i + 4] && u[4..] == s[o + 4..];
      JoinedWord(a, reg, u, align, u[4 - align..8 - align]);
      NextCarries(a, u, align);
      h := f.mix(h, m.join(t, d, align));
      t := d;
      reg := Little(a, s[i..i + 4]);
      i := i + 4;
      o := o + 4;
    }
    assert s[o..][4 - align..] == s[i..];
    r := Leftover(a, f, m, t, s[i..], align, reg, s[o..], h);
  }

  // ----- 32-bit words ---------------------------------------------------------------------------

  const BITS: Bytes<bv8> := Bytes(0, (x: bv8, y: bv8) => x | y)

  lemma BitsNeutral()
    ensures Neutral(BITS)
  {
    forall b: bv8
      ensures BITS.or(b, BITS.zero) == b && BITS.or(BITS.zero, b) == b
    {}
  }

  /** The value of a register. */
  function Word(b0: bv8, b1: bv8, b2: bv8, b3: bv8): bv32 {
    b0 as bv32 | ((b1 as bv32) << 8) | ((b2 as bv32) << 16) | ((b3 as bv32) << 24)
  }

  function Value(r: Reg<bv8>): bv32 {
    Word(r.b0, r.b1, r.b2, r.b3)
  }

  // The operations on registers are those on 32-bit words, one fact each.

  lemma Right8(b0: bv8, b1: bv8, b2: bv8, b3: bv8)
    ensures Word(b0, b1, b2, b3) >> 8 == Word(b1, b2, b3, 0)
  {}

  lemma Right16(b0: bv8, b1: bv8, b2: bv8, b3: bv8)
    ensures Word(b0, b1, b2, b3) >> 16 == Word(b2, b3, 0, 0)
  {}

  lemma Right24(b0: bv8, b1: bv8, b2: bv8, b3: bv8)
    ensures Word(b0, b1, b2, b3) >> 24 == Word(b3, 0, 0, 0)
  {}

  lemma Left8(b0: bv8, b1: bv8, b2: bv8, b3: bv8)
    ensures Word(b0, b1, b2, b3) << 8 == Word(0, b0, b1, b2)
  {}

  lemma Left16(b0: bv8, b1: bv8, b2: bv8, b3: bv8)
    ensures Word(b0, b1, b2, b3) << 16 == Word(0, 0, b0, b1)
  {}

  lemma Left24(b0: bv8, b1: bv8, b2: bv8, b3: bv8)
    ensures Word(b0, b1, b2, b3) << 24 == Word(0, 0, 0, b0)
  {}

  lemma OrBytes(b0: bv8, b1: bv8, b2: bv8, b3: bv8, c0: bv8, c1: bv8, c2: bv8, c3: bv8)
    ensures Word(b0, b1, b2, b3) | Word(c0, c1, c2, c3) == Word(b0 | c0, b1 | c1, b2 | c2, b3 | c3)
  {}

  /** The hash on the values of registers, and the program's operations on 32-bit words. */
  const MURMUR: Steps<bv8, bv32, bv32> := Steps(Value, Mix, Xor, Stir, Fini)

  const UINT32: Machine<bv8, bv32, bv32> := Machine(Load, Up, Join, Fold)

  /** `*(uint32_t *)data`, and the switches that put fewer bytes together. */
  function Load(s: seq<bv8>): bv32 {
    Word(At(BITS, s, 0), At(BITS, s, 1), At(BITS, s, 2), At(BITS, s, 3))
  }

  /** `t <<= 8 * align` */
  function Up(t: bv32, align: nat): bv32 {
    if align == 1 then t << 8 else if align == 2 then t << 16 else t << 24
  }

  /** `(t >> sr) | (d << sl)` with `sr = 8 * align` and `sl = 8 * (4 - align)` */
  function Join(t: bv32, d: bv32, align: nat): bv32 {
    if align == 1 then (t >> 8) | (d << 24) else if align == 2 then (t >> 16) | (d << 16) else (t >> 24) | (d << 8)
  }

  /** The switch on the tail. */
  function Fold(h: bv32, s: seq<bv8>): bv32 {
    var h3 := if |s| >= 3 then h ^ ((s[2] as bv32) << 16) else h;
    var h2 := if |s| >= 2 then h3 ^ ((s[1] as bv32) << 8) else h3;
    if |s| >= 1 then h2 ^ (s[0] as bv32) else h2
  }

  // ----- the words are the registers' values ----------------------------------------------------

  lemma LoadValue(s: seq<bv8>)
    requires |s| <= 4
    ensures Load(s) == Value(Little(BITS, s))
  {}

  lemma Up1(t: Reg<bv8>)
    ensures Value(t) << 8 == Value(ShiftLeft(BITS, t, 1))
  {
    var Reg(b0, b1, b2, b3) := t;
    Left8(b0, b1, b2, b3);
    assert ShiftLeft(BITS, t, 1) == Reg(0, b0, b1, b2);
  }

  lemma Up2(t: Reg<bv8>)
    ensures Value(t) << 16 == Value(ShiftLeft(BITS, t, 2))
  {
    var Reg(b0, b1, b2, b3) := t;
    Left16(b0, b1, b2, b3);
    assert ShiftLeft(BITS, t, 2) == Reg(0, 0, b0, b1);
  }

  lemma Up3(t: Reg<bv8>)
    ensures Value(t) << 24 == Value(ShiftLeft(BITS, t, 3))
  {
    var Reg(b0, b1, b2, b3) := t;
    Left24(b0, b1, b2, b3);
    assert ShiftLeft(BITS, t, 3) == Reg(0, 0, 0, b0);
  }

  lemma Down1(t: Reg<bv8>)
    ensures Value(t) >> 8 == Value(ShiftRight(BITS, t, 1))
  {
    var Reg(b0, b1, b2, b3) := t;
    Right8(b0, b1, b2, b3);
    assert ShiftRight(BITS, t, 1) == Reg(b1, b2, b3, 0);
  }

  lemma Down2(t: Reg<bv8>)
    ensures Value(t) >> 16 == Value(ShiftRight(BITS, t, 2))
  {
    var Reg(b0, b1, b2, b3) := t;
    Right16(b0, b1, b2, b3);
    assert ShiftRight(BITS, t, 2) == Reg(b2, b3, 0, 0);
  }

  lemma Down3(t: Reg<bv8>)
    ensures Value(t) >> 24 == Value(ShiftRight(BITS, t, 3))
  {
    var Reg(b0, b1, b2, b3) := t;
    Right24(b0, b1, b2, b3);
    assert ShiftRight(BITS, t, 3) == Reg(b3, 0, 0, 0);
  }

  lemma OrValue(t: Reg<bv8>, d: Reg<bv8>)
    ensures Value(t) | Value(d) == Value(Or(BITS, t, d))
  {
    OrBytes(t.b0, t.b1, t.b2, t.b3, d.b0, d.b1, d.b2, d.b3);
  }

  lemma Join1(t: Reg<bv8>, d: Reg<bv8>)
    ensures (Value(t) >> 8) | (Value(d) << 24) == Value(Joined(BITS, t, d, 1))
  {
    Down1(t);
    Up3(d);
    OrValue(ShiftRight(BITS, t, 1), ShiftLeft(BITS, d, 3));
  }

  lemma Join2(t: Reg<bv8>, d: Reg<bv8>)
    ensures (Value(t) >> 16) | (Value(d) << 16) == Value(Joined(BITS, t, d, 2))
  {
    Down2(t);
    Up2(d);
    OrValue(ShiftRight(BITS, t, 2), ShiftLeft(BITS, d, 2));
  }

  lemma Join3(t: Reg<bv8>, d: Reg<bv8>)
    ensures (Value(t) >> 24) | (Value(d) << 8) == Value(Joined(BITS, t, d, 3))
  {
    Down3(t);
    Up1(d);
    OrValue(ShiftRight(BITS, t, 3), ShiftLeft(BITS, d, 1));
  }

  lemma UpValue(t: Reg<bv8>, align: nat)
    requires 1 <= align <= 3
    ensures Up(Value(t), align) == Value(ShiftLeft(BITS, t, align))
  {
    if align == 1 {
      Up1(t);
    } else if align == 2 {
      Up2(t);
    } else {
      Up3(t);
    }
  }

  /** The shifts and the or of the unaligned loop put together the bytes that belong together. */
  lemma JoinValue(t: Reg<bv8>, d: Reg<bv8>, align: nat)
    requires 1 <= align <= 3
    ensures Join(Value(t), Value(d), align) == Value(Joined(BITS, t, d, align))
  {
    if align == 1 {
      Join1(t, d);
    } else if align == 2 {
      Join2(t, d);
    } else {
      Join3(t, d);
    }
  }

  // The tail's bytes are folded in one by one; they share no bits.

  lemma Xor3(h: bv32, b0: bv8, b1: bv8, b2: bv8)
    ensures h ^ ((b2 as bv32) << 16) ^ ((b1 as bv32) << 8) ^ (b0 as bv32) == h ^ Word(b0, b1, b2, 0)
  {}

  lemma Xor2(h: bv32, b0: bv8, b1: bv8)
    ensures h ^ ((b1 as bv32) << 8) ^ (b0 as bv32) == h ^ Word(b0, b1, 0, 0)
  {}

  lemma Xor1(h: bv32, b0: bv8)
    ensures h ^ (b0 as bv32) == h ^ Word(b0, 0, 0, 0)
  {}

  lemma Fold1(h: bv32, b0: bv8, s: seq<bv8>)
    requires s == [b0]
    ensures Fold(h, s) == h ^ Value(Little(BITS, s))
  {
    Xor1(h, b0);
    assert Little(BITS, s) == Reg(b0, 0, 0, 0);
  }

  lemma Fold2(h: bv32, b0: bv8, b1: bv8, s: seq<bv8>)
    requires s == [b0, b1]
    ensures Fold(h, s) == h ^ Value(Little(BITS, s))
  {
    Xor2(h, b0, b1);
    assert Little(BITS, s) == Reg(b0, b1, 0, 0);
  }

  lemma Fold3Bytes(h: bv32, b0: bv8, b1: bv8, b2: bv8)
    ensures Fold(h, [b0, b1, b2]) == h ^ ((b2 as bv32) << 16) ^ ((b1 as bv32) << 8) ^ (b0 as bv32)
  {}

  lemma Fold3Word(h: bv32, b0: bv8, b1: bv8, b2: bv8)
    ensures Fold(h, [b0, b1, b2]) == h ^ Word(b0, b1, b2, 0)
  {
    Fold3Bytes(h, b0, b1, b2);
    Xor3(h, b0, b1, b2);
  }

  lemma Fold3(h: bv32, b0: bv8, b1: bv8, b2: bv8, s: seq<bv8>)
    requires s == [b0, b1, b2]
    ensures Fold(h, s) == h ^ Value(Little(BITS, s))
  {
    Fold3Word(h, b0, b1, b2);
    assert Little(BITS, s) == Reg(b0, b1, b2, 0);
  }

  /** The switch on the tail is one exclusive or with the word that the bytes make. */
  lemma FoldValue(h: bv32, s: seq<bv8>)
    requires 1 <= |s| <= 3
    ensures Fold(h, s) == h ^ Value(Little(BITS, s))
  {
    if |s| == 1 {
      Fold1(h, s[0], s);
    } else if |s| == 2 {
      Fold2(h, s[0], s[1], s);
    } else {
      Fold3(h, s[0], s[1], s[2], s);
    }
  }

  /** The program's operations on 32-bit words are those on registers. */
  lemma Uint32Implements()
    ensures Implements(BITS, MURMUR, UINT32)
  {
    forall s: seq<bv8> | |s| <= 4
      ensures UINT32.load(s) == MURMUR.value(Little(BITS, s))
    {
      LoadValue(s);
    }
    forall t, n: nat | 1 <= n <= 3
      ensures UINT32.up(MURMUR.value(t), n) == MURMUR.value(ShiftLeft(BITS, t, n))
    {
      UpValue(t, n);
    }
    forall t, d, n: nat | 1 <= n <= 3
      ensures UINT32.join(MURMUR.value(t), MURMUR.value(d), n) == MURMUR.value(Joined(BITS, t, d, n))
    {
      JoinValue(t, d, n);
    }
    forall h, s: seq<bv8> | 1 <= |s| <= 3
      ensures UINT32.fold(h, s) == MURMUR.xor(h, MURMUR.value(Little(BITS, s)))
    {
      FoldValue(h, s);
    }
  }

  /** The length as an unsigned 32-bit number. */
  function Length(data: seq<bv8>): bv32 {
    (|data| % 0x1_0000_0000) as bv32
  }

  /** `murmur_hash2`, for data at an address with remainder `align` modulo four, with its loops,
      shifts and switches on 32-bit words. */
  method MurmurHash2(data: seq<bv8>, align: nat, seed: bv32) returns (r: bv32)
    requires align <= 3
    ensures r == Hash(BITS, MURMUR, data, seed ^ Length(data))
  {
    var len := Length(data);
    Uint32Implements();
    if align != 0 && |data| >= 4 {
      BitsNeutral();
      r := Unaligned(BITS, MURMUR, UINT32, data, align, seed ^ len);
    } else {
      r := Plain(BITS, MURMUR, UINT32, data, seed ^ len);
    }
  }

  // ----- what the hash tells apart --------------------------------------------------------------

  /** For any key the hash is one-to-one in the value it starts from. */
  lemma {:induction false} SameStart(s: seq<bv8>, h: bv32, h': bv32)
    requires Hash(BITS, MURMUR, s, h) == Hash(BITS, MURMUR, s, h')
    ensures h == h'
    decreases |s|
  {
    if |s| >= 4 {
      var k := Value(Little(BITS, s[..4]));
      SameStart(s[4..], Mix(h, k), Mix(h', k));
      MixSame(h, h', k);
    } else if |s| > 0 {
      var k := Value(Little(BITS, s));
      FiniSame(Stir(Xor(h, k)), Stir(Xor(h', k)));
      TailSame(h, h', k);
    } else {
      FiniSame(h, h');
    }
  }

  function Byte0(w: bv32): bv8 { (w & 0xFF) as bv8 }
  function Byte1(w: bv32): bv8 { ((w >> 8) & 0xFF) as bv8 }
  function Byte2(w: bv32): bv8 { ((w >> 16) & 0xFF) as bv8 }
  function Byte3(w: bv32): bv8 { ((w >> 24) & 0xFF) as bv8 }

  lemma WordBytes(b0: bv8, b1: bv8, b2: bv8, b3: bv8)
    ensures var w := Word(b0, b1, b2, b3); Byte0(w) == b0 && Byte1(w) == b1 && Byte2(w) == b2 && Byte3(w) == b3
  {}

  lemma SameRegister(r: Reg<bv8>, q: Reg<bv8>)
    requires Value(r) == Value(q)
    ensures r == q
  {
    WordBytes(r.b0, r.b1, r.b2, r.b3);
    WordBytes(q.b0, q.b1, q.b2, q.b3);
  }

  lemma SameBytes(s: seq<bv8>, t: seq<bv8>)
    requires |s| == |t| <= 4 && Value(Little(BITS, s)) == Value(Little(BITS, t))
    ensures s == t
  {
    SameRegister(Little(BITS, s), Little(BITS, t));
    assert forall i :: 0 <= i < |s| ==> s[i] == At(BITS, s, i) && t[i] == At(BITS, t, i);
  }

  /** Two keys that differ in one word, or in the bytes after the last word, do not collide. */
  lemma {:induction false} OneWordDiffers(p: seq<bv8>, s: seq<bv8>, t: seq<bv8>, rest: seq<bv8>, h: bv32)
    requires |p| % 4 == 0 && |s| == |t| <= 4 && (|s| < 4 ==> rest == []) && s != t
    ensures Hash(BITS, MURMUR, p + s + rest, h) != Hash(BITS, MURMUR, p + t + rest, h)
    decreases |p|
  {
    if |p| > 0 {
      assert (p + s + rest)[..4] == p[..4] == (p + t + rest)[..4];
      assert (p + s + rest)[4..] == p[4..] + s + rest && (p + t + rest)[4..] == p[4..] + t + rest;
      OneWordDiffers(p[4..], s, t, rest, Mix(h, Value(Little(BITS, p[..4]))));
    } else {
      assert p + s + rest == s + rest && p + t + rest == t + rest;
      if Hash(BITS, MURMUR, s + rest, h) == Hash(BITS, MURMUR, t + rest, h) {
        FirstWordSame(s, t, rest, h);
      }
    }
  }

  lemma FirstWordSame(s: seq<bv8>, t: seq<bv8>, rest: seq<bv8>, h: bv32)
    requires |s| == |t| <= 4 && (|s| < 4 ==> rest == [])
    requires Hash(BITS, MURMUR, s + rest, h) == Hash(BITS, MURMUR, t + rest, h)
    ensures s == t
  {
    if |s| == 4 {
      WordSame(s, t, rest, h, Value(Little(BITS, s)), Value(Little(BITS, t)));
    } else if |s| > 0 {
      assert s + rest == s && t + rest == t;
      LastSame(s, t, h, Value(Little(BITS, s)), Value(Little(BITS, t)));
    }
  }

  lemma WordSame(s: seq<bv8>, t: seq<bv8>, rest: seq<bv8>, h: bv32, k: bv32, l: bv32)
    requires |s| == |t| == 4 && k == Value(Little(BITS, s)) && l == Value(Little(BITS, t))
    requires Hash(BITS, MURMUR, s + rest, h) == Hash(BITS, MURMUR, t + rest, h)
    ensures s == t
  {
    HashMore(s, rest, h, k);
    HashMore(t, rest, h, l);
    SameStart(rest, Mix(h, k), Mix(h, l));
    MixWordSame(h, k, l);
    SameBytes(s, t);
  }

  lemma HashMore(s: seq<bv8>, rest: seq<bv8>, h: bv32, k: bv32)
    requires |s| == 4 && k == Value(Little(BITS, s))
    ensures Hash(BITS, MURMUR, s + rest, h) == Hash(BITS, MURMUR, rest, Mix(h, k))
  {
    assert (s + rest)[..4] == s && (s + rest)[4..] == rest;
  }

  lemma LastSame(s: seq<bv8>, t: seq<bv8>, h: bv32, k: bv32, l: bv32)
    requires 1 <= |s| == |t| <= 3 && k == Value(Little(BITS, s)) && l == Value(Little(BITS, t))
    requires Hash(BITS, MURMUR, s, h) == Hash(BITS, MURMUR, t, h)
    ensures s == t
  {
    FiniSame(Stir(Xor(h, k)), Stir(Xor(h, l)));
    TailWordSame(h, k, l);
    SameBytes(s, t);
  }

  // ----- a few keys -----------------------------------------------------------------------------

  const ABCDEFG: seq<bv8> := [0x61, 0x62, 0x63, 0x64, 0x65, 0x66, 0x67]

  lemma Words()
    ensures Word(0x61, 0x62, 0x63, 0x64) == 0x64636261 && Word(0x65, 0x66, 0x67, 0) == 0x676665 && Word(0x61, 0, 0, 0) == 0x61
  {}

  lemma Mixed()
    ensures Mix(4, 0x64636261) == 0x83b21f23 && Mix(7, 0x64636261) == 0x6e48da64
  {}

  lemma Ends()
    ensures Fini(0) == 0 && Fini(0x83b21f23) == 0x26873021 && Fini(0x6bb65595) == 0xf9a1cef3 && Fini(0x6eb797e0) == 0x92685f5e
  {}

  lemma Tails()
    ensures Stir(Xor(1, 0x61)) == 0x6eb797e0 && Stir(Xor(0x6e48da64, 0x676665)) == 0x6bb65595
  {}

  lemma HashWord(s: seq<bv8>, h: bv32, k: bv32)
    requires |s| >= 4 && k == Word(s[0], s[1], s[2], s[3])
    ensures Hash(BITS, MURMUR, s, h) == Hash(BITS, MURMUR, s[4..], Mix(h, k))
  {
    assert Little(BITS, s[..4]) == Reg(s[0], s[1], s[2], s[3]);
  }

  lemma HashTail(s: seq<bv8>, h: bv32, k: bv32)
    requires 1 <= |s| <= 3 && k == Value(Little(BITS, s))
    ensures Hash(BITS, MURMUR, s, h) == Fini(Stir(Xor(h, k)))
  {}

  lemma HashEnd(s: seq<bv8>, h: bv32)
    requires s == []
    ensures Hash(BITS, MURMUR, s, h) == Fini(h)
  {}

  lemma HashA(s: seq<bv8>)
    requires s == ABCDEFG[..1]
    ensures Hash(BITS, MURMUR, s, 1) == 0x92685f5e
  {
    assert Little(BITS, s) == Reg(0x61, 0, 0, 0);
    Words();
    HashTail(s, 1, 0x61);
    Tails();
    Ends();
  }

  lemma HashAbcd(s: seq<bv8>)
    requires s == ABCDEFG[..4]
    ensures Hash(BITS, MURMUR, s, 4) == 0x26873021
  {
    Words();
    HashWord(s, 4, 0x64636261);
    Mixed();
    HashEnd(s[4..], 0x83b21f23);
    Ends();
  }

  lemma HashAbcdefg(s: seq<bv8>)
    requires s == ABCDEFG
    ensures Hash(BITS, MURMUR, s, 7) == 0xf9a1cef3
  {
    Words();
    HashWord(s, 7, 0x64636261);
    Mixed();
    assert Little(BITS, s[4..]) == Reg(0x65, 0x66, 0x67, 0);
    HashTail(s[4..], 0x6e48da64, 0x676665);
    Tails();
    Ends();
  }

  lemma Lengths()
    ensures (0 % 0x1_0000_0000) as bv32 == 0 && (1 % 0x1_0000_0000) as bv32 == 1
    ensures (4 % 0x1_0000_0000) as bv32 == 4 && (7 % 0x1_0000_0000) as bv32 == 7
  {}

  /** Some keys, and their hashes at every address. */
  method KnownKeys(align: nat) returns (none: bv32, a: bv32, abcd: bv32, abcdefg: bv32)
    requires align <= 3
    ensures none == 0 && a == 0x92685f5e && abcd == 0x26873021 && abcdefg == 0xf9a1cef3
  {
    Lengths();
    none := MurmurHash2([], align, 0);
    HashEnd([], 0);
    Ends();
    a := MurmurHash2(ABCDEFG[..1], align, 0);
    HashA(ABCDEFG[..1]);
    abcd := MurmurHash2(ABCDEFG[..4], align, 0);
    HashAbcd(ABCDEFG[..4]);
    abcdefg := MurmurHash2(ABCDEFG, align, 0);
    HashAbcdefg(ABCDEFG);
  }
}
