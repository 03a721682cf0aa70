/** The compression function of SHA-1: the program's sixteen-word circular schedule and its rotating
    registers, against the eighty-word schedule and the shifting registers of section 7 of
    FIPS 180-1. `sha1_process` in `hash_func_sha1.c`. */
module Sha1Rounds {

  /** The operations on words; the structure below does not look into them. `sum` adds up the five
      terms of a round, in whatever order. */
  datatype Ops<!W> = Ops(xor: (W, W) -> W, add: (W, W) -> W, sum: (W, W, W, W, W) -> W, rot1: W -> W, rot5: W -> W, rot30: W -> W,
                         f: (nat, W, W, W) -> W, k: nat -> W)

  datatype Regs<W> = Regs(a: W, b: W, c: W, d: W, e: W)

  // ----- FIPS 180-1 -----------------------------------------------------------------------------

  /** Section 7, step b: word `t` of the schedule. */
  function Schedule<W>(o: Ops<W>, block: seq<W>, t: nat): W
    requires |block| == 16
  {
    if t < 16 then block[t]
    else Combine(o, Schedule(o, block, t - 3), Schedule(o, block, t - 8), Schedule(o, block, t - 14), Schedule(o, block, t - 16))
  }

  function Combine<W>(o: Ops<W>, p: W, q: W, r: W, s: W): W {
    o.rot1(o.xor(o.xor(o.xor(p, q), r), s))
  }

  /** Section 7, step d. */
  function Round<W>(o: Ops<W>, t: nat, r: Regs<W>, x: W): Regs<W> {
    var temp := o.sum(o.rot5(r.a), o.f(t, r.b, r.c, r.d), r.e, x, o.k(t));
    Regs(temp, r.a, o.rot30(r.b), r.c, r.d)
  }

  function Rounds<W>(o: Ops<W>, block: seq<W>, r: Regs<W>, t: nat): Regs<W>
    requires |block| == 16
  {
    if t == 0 then r else Round(o, t - 1, Rounds(o, block, r, t - 1), Schedule(o, block, t - 1))
  }

  function NumberOfRounds(): (n: nat)
    ensures n == 80
  {
    80
  }

  /** Section 7, steps c to e. */
  function Compress<W>(o: Ops<W>, h: Regs<W>, block: seq<W>): Regs<W>
    requires |block| == 16
  {
    var r := Rounds(o, block, h, NumberOfRounds());
    Regs(o.add(h.a, r.a), o.add(h.b, r.b), o.add(h.c, r.c), o.add(h.d, r.d), o.add(h.e, r.e))
  }

  // ----- the program ----------------------------------------------------------------------------

  /** Which of the five registers plays role `j` in round `t`: the roles move down one register
      each round. */
  function Role(j: nat, t: nat): nat
    ensures Role(j, t) < 5
  {
    (j + 4 * t) % 5
  }

  ghost function InRoles<W>(v: seq<W>, t: nat): Regs<W>
    requires |v| == 5
  {
    Regs(v[Role(0, t)], v[Role(1, t)], v[Role(2, t)], v[Role(3, t)], v[Role(4, t)])
  }

  lemma RolesDiffer(t: nat)
    ensures Role(0, t) != Role(1, t) && Role(0, t) != Role(2, t) && Role(0, t) != Role(3, t) && Role(0, t) != Role(4, t)
    ensures Role(1, t) != Role(2, t) && Role(1, t) != Role(3, t) && Role(1, t) != Role(4, t)
    ensures Role(2, t) != Role(3, t) && Role(2, t) != Role(4, t) && Role(3, t) != Role(4, t)
  {}

  lemma RolesMove(t: nat)
    ensures Role(0, t + 1) == Role(4, t) && Role(1, t + 1) == Role(0, t) && Role(2, t + 1) == Role(1, t)
    ensures Role(3, t + 1) == Role(2, t) && Role(4, t + 1) == Role(3, t)
  {
    Mod5(4 * t);
    Mod5(4 * t + 1);
    Mod5(4 * t + 2);
    Mod5(4 * t + 3);
  }

  lemma Mod5(x: nat)
    ensures (x + 5) % 5 == x % 5
  {}

  /** After eighty rounds every register has its first role again. */
  lemma RolesHome(t: nat)
    requires t == NumberOfRounds()
    ensures Role(0, t) == 0 && Role(1, t) == 1 && Role(2, t) == 2 && Role(3, t) == 3 && Role(4, t) == 4
  {}

  /** The macro P: two registers are written, none is moved. */
  function P<W>(o: Ops<W>, v: seq<W>, t: nat, x: W): seq<W>
    requires |v| == 5
  {
    var a, b, c, d, e := Role(0, t), Role(1, t), Role(2, t), Role(3, t), Role(4, t);
    v[e := o.sum(o.rot5(v[a]), o.f(t, v[b], v[c], v[d]), v[e], x, o.k(t))][b := o.rot30(v[b])]
  }

  lemma PRound<W>(o: Ops<W>, v: seq<W>, t: nat, x: W)
    requires |v| == 5
    ensures InRoles(P(o, v, t, x), t + 1) == Round(o, t, InRoles(v, t), x)
  {
    RolesDiffer(t);
    RolesMove(t);
  }

  /** The circular buffer holds the last sixteen words of the schedule. */
  ghost predicate Window<W>(o: Ops<W>, block: seq<W>, w: seq<W>, t: nat) {
    |block| == 16 && |w| == 16 && forall j {:trigger Latest(j, t)} :: 0 <= j < 16 ==> w[j] == Schedule(o, block, Latest(j, t))
  }

  /** The latest index below `t` (or below 16) that falls on place `j`. */
  function Latest(j: nat, t: nat): nat
    requires j < 16
  {
    if t <= 16 then j else t - 1 - (t - 1 - j) % 16
  }

  lemma LatestAt(t: nat, k: nat)
    requires 16 <= t && 1 <= k <= 16
    ensures (t - k) % 16 < 16 && Latest((t - k) % 16, t) == t - k
  {}

  lemma LatestNext(t: nat, j: nat)
    requires 16 <= t && j < 16
    ensures Latest(j, t + 1) == if j == t % 16 then t else Latest(j, t)
  {}

  /** The macro R. */
  function R<W>(o: Ops<W>, w: seq<W>, t: nat): W
    requires |w| == 16 && t >= 16
  {
    Combine(o, w[(t - 3) % 16], w[(t - 8) % 16], w[(t - 14) % 16], w[t % 16])
  }

  lemma RSchedule<W>(o: Ops<W>, block: seq<W>, w: seq<W>, t: nat)
    requires Window(o, block, w, t) && t >= 16
    ensures R(o, w, t) == Schedule(o, block, t)
  {
    Mod16(t);
    var p := WindowAt(o, block, w, t, 3);
    var q := WindowAt(o, block, w, t, 8);
    var r := WindowAt(o, block, w, t, 14);
    var s := WindowAt(o, block, w, t, 16);
    Unfold(o, block, t, p, q, r, s);
  }

  lemma Unfold<W>(o: Ops<W>, block: seq<W>, t: nat, p: W, q: W, r: W, s: W)
    requires |block| == 16 && t >= 16 && p == Schedule(o, block, t - 3) && q == Schedule(o, block, t - 8)
    requires r == Schedule(o, block, t - 14) && s == Schedule(o, block, t - 16)
    ensures Schedule(o, block, t) == Combine(o, p, q, r, s)
  {}

  lemma Mod16(t: nat)
    requires t >= 16
    ensures (t - 16) % 16 == t % 16
  {}

  lemma WindowAt<W>(o: Ops<W>, block: seq<W>, w: seq<W>, t: nat, k: nat) returns (x: W)
    requires Window(o, block, w, t) && t >= 16 && 1 <= k <= 16
    ensures x == w[(t - k) % 16] == Schedule(o, block, t - k)
  {
    LatestAt(t, k);
    x := w[(t - k) % 16];
  }

  lemma WindowMoves<W>(o: Ops<W>, block: seq<W>, w: seq<W>, w': seq<W>, t: nat)
    requires Window(o, block, w, t) && t >= 16 && w' == w[t % 16 := Schedule(o, block, t)]
    ensures Window(o, block, w', t + 1)
  {
    forall j | 0 <= j < 16
      ensures w'[j] == Schedule(o, block, Latest(j, t + 1))
    {
      LatestNext(t, j);
    }
  }

  lemma WindowStays<W>(o: Ops<W>, block: seq<W>, w: seq<W>, t: nat)
    requires Window(o, block, w, t) && t < 16
    ensures w[t] == Schedule(o, block, t) && Window(o, block, w, t + 1)
  {
    forall j | 0 <= j < 16
      ensures w[j] == Schedule(o, block, Latest(j, t + 1))
    {
      assert Latest(j, t) == j == Latest(j, t + 1);
    }
  }

  /** The word for round `t`, and the buffer after it. */
  method NextWord<W>(o: Ops<W>, w: array<W>, t: nat, ghost block: seq<W>) returns (x: W)
    requires w.Length == 16 && Window(o, block, w[..], t)
    modifies w
    ensures x == Schedule(o, block, t) && Window(o, block, w[..], t + 1)
  {
    ghost var u := w[..];
    if t < 16 {
      WindowStays(o, block, u, t);
      x := w[t];
    } else {
      RSchedule(o, block, u, t);
      x := Combine(o, w[(t - 3) % 16], w[(t - 8) % 16], w[(t - 14) % 16], w[t % 16]);
      w[t % 16] := x;
      WindowMoves(o, block, u, w[..], t);
    }
  }

  /** `sha1_process`, its eighty lines as a loop. */
  method Process<W>(o: Ops<W>, h: Regs<W>, block: seq<W>) returns (r: Regs<W>)
    requires |block| == 16
    ensures r == Compress(o, h, block)
  {
    var w := new W[16](i requires 0 <= i < 16 => block[i]);
    var v := [h.a, h.b, h.c, h.d, h.e];
    var t := 0;
    while t < NumberOfRounds()
      invariant 0 <= t <= NumberOfRounds() && |v| == 5 && Window(o, block, w[..], t)
      invariant InRoles(v, t) == Rounds(o, block, h, t)
    {
      var x := NextWord(o, w, t, block);
      PRound(o, v, t, x);
      v := P(o, v, t, x);
      t := t + 1;
    }
    RolesHome(t);
    r := Regs(o.add(h.a, v[0]), o.add(h.b, v[1]), o.add(h.c, v[2]), o.add(h.d, v[3]), o.add(h.e, v[4]));
  }

  // ----- words of different width ---------------------------------------------------------------

  /** `low` carries the operations of `o` over to those of `p`. */
  ghost predicate Carries<W(!new), V(!new)>(o: Ops<W>, p: Ops<V>, low: W -> V) {
    && (forall x, y :: low(o.xor(x, y)) == p.xor(low(x), low(y)))
    && (forall x, y :: low(o.add(x, y)) == p.add(low(x), low(y)))
    && (forall s, f, e, x, k :: low(o.sum(s, f, e, x, k)) == p.sum(low(s), low(f), low(e), low(x), low(k)))
    && (forall x :: low(o.rot1(x)) == p.rot1(low(x)))
    && (forall x :: low(o.rot5(x)) == p.rot5(low(x)))
    && (forall x :: low(o.rot30(x)) == p.rot30(low(x)))
    && (forall t, x, y, z :: low(o.f(t, x, y, z)) == p.f(t, low(x), low(y), low(z)))
    && (forall t :: low(o.k(t)) == p.k(t))
  }

  function LowAll<W, V>(low: W -> V, ws: seq<W>): (vs: seq<V>)
    ensures |vs| == |ws| && forall i :: 0 <= i < |ws| ==> vs[i] == low(ws[i])
  {
    seq(|ws|, i requires 0 <= i < |ws| => low(ws[i]))
  }

  function LowRegs<W, V>(low: W -> V, r: Regs<W>): Regs<V> {
    Regs(low(r.a), low(r.b), low(r.c), low(r.d), low(r.e))
  }

  lemma {:induction false} LowSchedule<W(!new), V(!new)>(o: Ops<W>, p: Ops<V>, low: W -> V, block: seq<W>, t: nat)
    requires |block| == 16 && Carries(o, p, low)
    ensures low(Schedule(o, block, t)) == Schedule(p, LowAll(low, block), t)
  {
    if t >= 16 {
      LowSchedule(o, p, low, block, t - 3);
      LowSchedule(o, p, low, block, t - 8);
      LowSchedule(o, p, low, block, t - 14);
      LowSchedule(o, p, low, block, t - 16);
    }
  }

  lemma LowRound<W(!new), V(!new)>(o: Ops<W>, p: Ops<V>, low: W -> V, t: nat, r: Regs<W>, x: W)
    requires Carries(o, p, low)
    ensures LowRegs(low, Round(o, t, r, x)) == Round(p, t, LowRegs(low, r), low(x))
  {}

  lemma {:induction false} LowRounds<W(!new), V(!new)>(o: Ops<W>, p: Ops<V>, low: W -> V, block: seq<W>, r: Regs<W>, t: nat)
    requires |block| == 16 && Carries(o, p, low)
    ensures LowRegs(low, Rounds(o, block, r, t)) == Rounds(p, LowAll(low, block), LowRegs(low, r), t)
  {
    if t > 0 {
      LowRounds(o, p, low, block, r, t - 1);
      LowSchedule(o, p, low, block, t - 1);
      LowRound(o, p, low, t - 1, Rounds(o, block, r, t - 1), Schedule(o, block, t - 1));
    }
  }

  /** Computing in wider words and dropping the upper bits gives what the narrow words give. */
  lemma LowCompress<W(!new), V(!new)>(o: Ops<W>, p: Ops<V>, low: W -> V, h: Regs<W>, block: seq<W>)
    requires |block| == 16 && Carries(o, p, low)
    ensures LowRegs(low, Compress(o, h, block)) == Compress(p, LowRegs(low, h), LowAll(low, block))
  {
    LowRounds(o, p, low, block, h, NumberOfRounds());
  }
}
