/** SHA-1 over a stream of updates: the 64-byte buffer, the byte count in two words, and the
    padding. `sha1_starts`, `sha1_update` and `sha1_finish` in `hash_func_sha1.c`. */
module Sha1Stream {
  import opened Sha1Rounds
  import opened Sha1Words
  import opened Guards

  const MOD := 0x1_0000_0000

  function ZeroBytes(n: nat): (s: seq<bv8>)
    ensures |s| == n
  {
    seq(n, _ => 0)
  }

  // ----- FIPS 180-1 -----------------------------------------------------------------------------

  /** Four bytes, the first one highest. */
  function BigEndian(b: seq<bv8>): bv32
    requires |b| == 4
  {
    ((b[0] as bv32) << 24) | ((b[1] as bv32) << 16) | ((b[2] as bv32) << 8) | (b[3] as bv32)
  }

  function Words(block: seq<bv8>): (ws: seq<bv32>)
    requires |block| == 64
    ensures |ws| == 16
  {
    seq(16, i requires 0 <= i < 16 => BigEndian(block[4 * i..4 * i + 4]))
  }

  function Block(h: Regs<bv32>, block: seq<bv8>): Regs<bv32> {
    if |block| == 64 then Compress(Fips(WORD), h, Words(block)) else h
  }

  /** What is done to the state, block after block. */
  type Step = (Regs<bv32>, seq<bv8>) -> Regs<bv32>

  function Blocks(f: Step, h: Regs<bv32>, s: seq<bv8>): Regs<bv32> {
    if |s| < 64 then h else f(Blocks(f, h, s[..|s| - 64]), s[|s| - 64..])
  }

  lemma BlocksSnoc(f: Step, h: Regs<bv32>, s: seq<bv8>, block: seq<bv8>)
    requires |block| == 64
    ensures Blocks(f, h, s + block) == f(Blocks(f, h, s), block)
  {
    var t := s + block;
    assert t[..|t| - 64] == s && t[|t| - 64..] == block;
  }

  /** Section 7. */
  const INITIAL: Regs<bv32> := Regs(0x67452301, 0xEFCDAB89, 0x98BADCFE, 0x10325476, 0xC3D2E1F0)

  function Digit(n: nat): bv8 {
    (n % 256) as bv8
  }

  /** The last four, and eight, digits of a number to the base 256. */
  function Bytes4(n: nat): (s: seq<bv8>)
    ensures |s| == 4
  {
    [Digit(n / 0x100_0000), Digit(n / 0x1_0000), Digit(n / 0x100), Digit(n)]
  }

  function Bytes8(n: nat): (s: seq<bv8>)
    ensures |s| == 8
  {
    Bytes4(n / 0x1_0000_0000) + Bytes4(n)
  }

  /** Section 4: a one bit, zeros up to 56 bytes modulo 64, and the length in bits. */
  function Padding(len: nat): seq<bv8> {
    [0x80] + ZeroBytes(ZerosNeeded(len)) + Bytes8(8 * len)
  }

  function Padded(m: seq<bv8>): seq<bv8> {
    m + Padding(|m|)
  }

  function ZerosNeeded(len: nat): nat {
    (119 - len % 64) % 64
  }

  /** The fewest zeros that lead to 56 bytes modulo 64, and with the length to a whole block. */
  lemma PadTo56(len: nat)
    ensures ZerosNeeded(len) == if len % 64 <= 55 then 55 - len % 64 else 119 - len % 64
    ensures (len + 1 + ZerosNeeded(len)) % 64 == 56 && (len + 1 + ZerosNeeded(len) + 8) % 64 == 0
  {
    var q, r := len / 64, len % 64;
    var z := if r <= 55 then 55 - r else 119 - r;
    var n := if r <= 55 then q else q + 1;
    assert len + 1 + z == 64 * n + 56;
    Times64(n, 56);
    Times64(n + 1, 0);
  }

  lemma Times64(n: nat, r: nat)
    requires r < 64
    ensures (64 * n + r) % 64 == r
  {}

  lemma PaddedLength(m: seq<bv8>)
    ensures |Padded(m)| == |m| + 1 + ZerosNeeded(|m|) + 8 && |Padded(m)| % 64 == 0
  {
    PadTo56(|m|);
  }

  // ----- the program ----------------------------------------------------------------------------

  function Lower(x: Long<bv32>): bv32 {
    x.lo
  }

  function Widened(ws: seq<bv32>): (ls: seq<Long<bv32>>)
    ensures |ls| == |ws| && LowAll(Lower, ls) == ws
  {
    seq(|ws|, i requires 0 <= i < |ws| => Long(0, ws[i]))
  }

  class Context {
    var total0: nat
    var total1: nat
    var state: Regs<Long<bv32>>
    const buffer: array<bv8>
    ghost var fed: seq<bv8>        // every byte given so far
    ghost var blocks: nat           // how many whole blocks of them were processed

    /** The state after the first `k` blocks of `all`, and `left` bytes more in the buffer. */
    ghost predicate Absorbed(f: Step, all: seq<bv8>, k: nat, left: nat)
      reads this`state, buffer
    {
      && buffer.Length == 64 && left < 64 && 64 * k + left <= |all|
      && LowRegs(Lower, state) == Blocks(f, INITIAL, all[..64 * k]) && buffer[..left] == all[64 * k..64 * k + left]
    }

    ghost predicate Inside(f: Step)
      reads this, buffer
    {
      && total0 == |fed| % MOD && total1 == |fed| / MOD
      && 64 * blocks <= |fed| && Absorbed(f, fed, blocks, |fed| - 64 * blocks)
    }

    /** The invariant. Proofs that only pass it on need not look into it. */
    ghost predicate Valid(f: Step)
      reads this, buffer
    {
      forall z {:trigger Open(z)} :: Open(z) ==> Inside(f)
    }

    lemma Opened(f: Step)
      requires Valid(f)
      ensures Inside(f)
    {
      assert Open(0);
    }

    /** `sha1_starts` */
    constructor ()
      ensures forall f: Step :: Valid(f)
      ensures fed == [] && fresh(buffer)
    {
      buffer := new bv8[64](_ => 0);
      total0, total1, fed, blocks := 0, 0, [], 0;
      state := Regs(Long(0, 0x67452301), Long(0, 0xEFCDAB89), Long(0, 0x98BADCFE), Long(0, 0x10325476), Long(0, 0xC3D2E1F0));
    }

    /** `sha1_process` on 64 bytes. */
    method ProcessBlock(data: seq<bv8>, ghost f: Step)
      requires |data| == 64 && IsBlock(f)
      modifies this`state
      ensures LowRegs(Lower, state) == f(LowRegs(Lower, old(state)), data)
    {
      assert f(LowRegs(Lower, state), data) == Block(LowRegs(Lower, state), data);
      WordLaws();
      state := ProcessLong(WORD, state, Widened(Words(data)), Lower);
    }

    /** A `memcpy` into the buffer. */
    method Copy(at: nat, chunk: seq<bv8>)
      requires at + |chunk| <= buffer.Length
      modifies buffer
      ensures buffer[..] == old(buffer[..at]) + chunk + old(buffer[at + |chunk|..])
    {
      for i := 0 to |chunk|
        invariant forall j :: 0 <= j < buffer.Length ==> buffer[j] == if at <= j < at + i then chunk[j - at] else old(buffer[j])
      {
        buffer[at + i] := chunk[i];
      }
    }

    /** A full block, wherever it lies. */
    method Absorb(data: seq<bv8>, ghost f: Step, ghost all: seq<bv8>, ghost k: nat)
      requires IsBlock(f) && Absorbed(f, all, k, 0) && 64 * k + 64 <= |all| && data == all[64 * k..64 * k + 64]
      modifies this`state
      ensures Absorbed(f, all, k + 1, 0)
    {
      ProcessBlock(data, f);
      BlocksSnoc(f, INITIAL, all[..64 * k], data);
      assert all[..64 * k] + data == all[..64 * (k + 1)];
    }

    /** The first part of `sha1_update`: a block that was begun before is completed. */
    method Complete(left: nat, chunk: seq<bv8>, ghost f: Step, ghost all: seq<bv8>, ghost k: nat)
      requires IsBlock(f) && Absorbed(f, all, k, left) && |chunk| == 64 - left && 64 * k + 64 <= |all|
      requires chunk == all[64 * k + left..64 * k + 64]
      modifies this`state, buffer
      ensures Absorbed(f, all, k + 1, 0)
    {
      Copy(left, chunk);
      assert buffer[..] == all[64 * k..64 * k + 64];
      Absorb(buffer[..], f, all, k);
    }

    /** The loop over the whole blocks of the input; what is left of it. */
    method AbsorbBlocks(input: seq<bv8>, ghost f: Step, ghost all: seq<bv8>, ghost k: nat) returns (rest: seq<bv8>, ghost k': nat)
      requires IsBlock(f) && Absorbed(f, all, k, 0) && input == all[64 * k..]
      modifies this`state
      ensures Absorbed(f, all, k', 0) && |rest| < 64 && rest == all[64 * k'..]
    {
      rest, k' := input, k;
      while |rest| >= 64
        invariant Absorbed(f, all, k', 0) && rest == all[64 * k'..]
        decreases |rest|
      {
        Absorb(rest[..64], f, all, k');
        rest := rest[64..];
        k' := k' + 1;
      }
    }

    /** `sha1_update`: however the input is cut, the blocks are those of the whole. */
    method Update(input: seq<bv8>, ghost f: Step)
      requires IsBlock(f) && Valid(f) && |input| < 0x8000_0000
      modifies this, buffer
      ensures Valid(f) && fed == old(fed) + input
    {
      if |input| <= 0 {
        assert fed == fed + input;
        return;
      }
      Opened(f);
      var left := Left(f);
      var fill := 64 - left;
      ghost var len := |fed|;
      Count(|input|, len);
      Take(left, fill, input, f);
      assert |fed| == len + |input|;
      assert total0 == |fed| % MOD && total1 == |fed| / MOD;
    }

    method Left(ghost f: Step) returns (left: nat)
      requires Valid(f)
      ensures left < 64 && |fed| == 64 * blocks + left
    {
      Opened(f);
      Remainder(|fed|, blocks);
      left := total0 % 64;
    }

    method Count(ilen: nat, ghost len: nat)
      requires ilen < MOD && total0 == len % MOD && total1 == len / MOD
      modifies this`total0, this`total1
      ensures total0 == (len + ilen) % MOD && total1 == (len + ilen) / MOD
    {
      CountOn(len, ilen);
      total0 := (total0 + ilen) % MOD;
      if total0 < ilen {
        total1 := total1 + 1;
      }
    }

    method Take(left: nat, fill: nat, input: seq<bv8>, ghost f: Step)
      requires IsBlock(f) && |fed| == 64 * blocks + left && left < 64 && fill == 64 - left && Absorbed(f, fed, blocks, left)
      modifies this`state, this`fed, this`blocks, buffer
      ensures fed == old(fed) + input && 64 * blocks <= |fed| && Absorbed(f, fed, blocks, |fed| - 64 * blocks)
    {
      ghost var all, k := fed + input, blocks;
      AbsorbedMore(f, fed, input, k, left);
      fed := all;
      if left > 0 && |input| >= fill {
        assert input[..fill] == all[64 * k + left..64 * k + 64] && input[fill..] == all[64 * k + 64..];
        Complete(left, input[..fill], f, all, k);
        blocks := TakeRest(input[fill..], f, all, k + 1);
      } else if left == 0 {
        assert input == all[64 * k..];
        blocks := TakeRest(input, f, all, k);
      } else {
        Keep(left, input, f, all, k);
      }
    }

    /** From a block boundary: the whole blocks, and the rest into the buffer. */
    method TakeRest(input: seq<bv8>, ghost f: Step, ghost all: seq<bv8>, ghost k: nat) returns (ghost k': nat)
      requires IsBlock(f) && Absorbed(f, all, k, 0) && input == all[64 * k..]
      modifies this`state, buffer
      ensures 64 * k' <= |all| && Absorbed(f, all, k', |all| - 64 * k')
    {
      var rest;
      rest, k' := AbsorbBlocks(input, f, all, k);
      Keep(0, rest, f, all, k');
    }

    /** The end of `sha1_update`. */
    method Keep(left: nat, rest: seq<bv8>, ghost f: Step, ghost all: seq<bv8>, ghost k: nat)
      requires Absorbed(f, all, k, left) && left + |rest| < 64 && rest == all[64 * k + left..]
      modifies buffer
      ensures |all| == 64 * k + left + |rest| && Absorbed(f, all, k, left + |rest|)
    {
      if |rest| > 0 {
        Copy(left, rest);
      }
      assert all[64 * k..64 * k + left + |rest|] == all[64 * k..64 * k + left] + rest;
    }

    /** The two pieces that `sha1_finish` feeds. */
    method Trailer(ghost f: Step) returns (padding: seq<bv8>, msglen: seq<bv8>)
      requires Valid(f)
      ensures |padding| <= 64 && |msglen| == 8 && padding + msglen == Padding(|fed|)
    {
      Opened(f);
      var high := total0 / 0x2000_0000 + total1 * 8;      // no bit in common: an or
      var low := total0 * 8;
      msglen := Bytes4(high) + Bytes4(low);
      LengthBytes(|fed|);
      var last := Left(f);
      var padn := if last < 56 then 56 - last else 120 - last;
      Pad(padn, last, |fed|, blocks);
      padding := ([0x80] + ZeroBytes(63))[..padn];
      assert padding == [0x80] + ZeroBytes(ZerosNeeded(|fed|));
    }

    method Output(ghost f: Step) returns (output: seq<bv8>)
      requires Valid(f) && |fed| % 64 == 0
      ensures |fed| == 64 * blocks && output == Digest(Blocks(f, INITIAL, fed))
    {
      Opened(f);
      WholeBlocks(|fed|, blocks);
      assert fed[..64 * blocks] == fed;
      output := WordBytes(state.a.lo) + WordBytes(state.b.lo) + WordBytes(state.c.lo) + WordBytes(state.d.lo) + WordBytes(state.e.lo);
    }

    /** `sha1_finish`: what is fed is exactly the padding of section 4, nothing is left over, and
        the digest is that of the padded message. */
    method Finish(ghost f: Step) returns (output: seq<bv8>)
      requires IsBlock(f) && Valid(f)
      modifies this, buffer
      ensures Valid(f) && fed == Padded(old(fed)) && |fed| == 64 * blocks
      ensures output == Digest(Blocks(f, INITIAL, Padded(old(fed))))
    {
      ghost var m := fed;
      var padding, msglen := Trailer(f);
      Update(padding, f);
      Update(msglen, f);
      assert m + padding + msglen == m + (padding + msglen);
      PaddedLength(m);
      output := Output(f);
    }

    lemma AbsorbedMore(f: Step, s: seq<bv8>, t: seq<bv8>, k: nat, left: nat)
      requires Absorbed(f, s, k, left)
      ensures Absorbed(f, s + t, k, left)
    {
      assert (s + t)[..64 * k] == s[..64 * k] && (s + t)[64 * k..64 * k + left] == s[64 * k..64 * k + left];
    }
  }

  ghost predicate IsBlock(f: Step) {
    forall h, block {:trigger Block(h, block)} :: f(h, block) == Block(h, block)
  }

  /** The byte count in two words. */
  lemma CountOn(len: nat, more: nat)
    requires more < MOD
    ensures (len + more) % MOD == (len % MOD + more) % MOD
    ensures (len + more) / MOD == len / MOD + if (len % MOD + more) % MOD < more then 1 else 0
  {}

  lemma Remainder(len: nat, k: nat)
    requires 64 * k <= len < 64 * k + 64
    ensures len % MOD % 64 == len - 64 * k
  {}

  /** The bytes of a word, the highest first. */
  function WordBytes(w: bv32): (s: seq<bv8>)
    ensures |s| == 4
  {
    [((w >> 24) & 0xFF) as bv8, ((w >> 16) & 0xFF) as bv8, ((w >> 8) & 0xFF) as bv8, (w & 0xFF) as bv8]
  }

  function Digest(h: Regs<bv32>): seq<bv8> {
    WordBytes(h.a) + WordBytes(h.b) + WordBytes(h.c) + WordBytes(h.d) + WordBytes(h.e)
  }

  lemma WholeBlocks(len: nat, k: nat)
    requires len % 64 == 0 && 64 * k <= len < 64 * k + 64
    ensures len == 64 * k
  {}

  lemma Pad(padn: nat, last: nat, len: nat, k: nat)
    requires last < 64 && len == 64 * k + last && padn == if last < 56 then 56 - last else 120 - last
    ensures 1 <= padn <= 64 && padn == 1 + ZerosNeeded(len)
  {
    Times64(k, last);
    PadTo56(len);
  }

  /** The two words of the byte count give the length in bits. */
  lemma LengthBytes(len: nat)
    ensures Bytes4(len % MOD / 0x2000_0000 + len / MOD * 8) + Bytes4(len % MOD * 8) == Bytes8(8 * len)
  {
    var t0, t1 := len % MOD, len / MOD;
    assert len == t1 * MOD + t0;
    assert 8 * len == t1 * 8 * MOD + 8 * t0;
    assert 8 * len / MOD == t1 * 8 + t0 / 0x2000_0000;
    SameLow(t0 * 8, t1 * 8);
  }

  lemma SameLow(a: nat, q: nat)
    ensures Bytes4(a + q * MOD) == Bytes4(a)
  {
    Digit3(a, q);
    Digit2(a, q);
    Digit1(a, q);
    Multiple(a, q * 0x100_0000);
  }

  lemma Multiple(x: nat, q: nat)
    ensures (x + q * 256) % 256 == x % 256
  {}

  lemma Digit3(a: nat, q: nat)
    ensures (a + q * MOD) / 0x100_0000 % 256 == a / 0x100_0000 % 256
  {
    assert (a + q * MOD) / 0x100_0000 == a / 0x100_0000 + q * 256;
    Multiple(a / 0x100_0000, q);
  }

  lemma Digit2(a: nat, q: nat)
    ensures (a + q * MOD) / 0x1_0000 % 256 == a / 0x1_0000 % 256
  {
    assert (a + q * MOD) / 0x1_0000 == a / 0x1_0000 + q * 256 * 256;
    Multiple(a / 0x1_0000, q * 256);
  }

  lemma Digit1(a: nat, q: nat)
    ensures (a + q * MOD) / 0x100 % 256 == a / 0x100 % 256
  {
    assert (a + q * MOD) / 0x100 == a / 0x100 + q * 0x1_0000 * 256;
    Multiple(a / 0x100, q * 0x1_0000);
  }

  function Concat(chunks: seq<seq<bv8>>): seq<bv8> {
    if chunks == [] then [] else Concat(chunks[..|chunks| - 1]) + chunks[|chunks| - 1]
  }

  /** A whole hash: it depends on the bytes alone, not on how they are cut into updates, and it is
      the digest of the padded message. */
  method Sha1(chunks: seq<seq<bv8>>) returns (output: seq<bv8>)
    requires forall i :: 0 <= i < |chunks| ==> |chunks[i]| < 0x8000_0000
    ensures output == Digest(Blocks(Block, INITIAL, Padded(Concat(chunks))))
  {
    var ctx := new Context();
    ghost var f: Step := Block;
    var i := 0;
    while i < |chunks|
      invariant 0 <= i <= |chunks| && IsBlock(f) && ctx.Valid(f) && ctx.fed == Concat(chunks[..i]) && fresh(ctx) && fresh(ctx.buffer)
    {
      ctx.Update(chunks[i], f);
      assert chunks[..i + 1][..i] == chunks[..i];
      i := i + 1;
    }
    assert chunks[..i] == chunks;
    output := ctx.Finish(f);
  }
}
