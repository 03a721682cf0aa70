/** Jenkins' lookup3: three ways to read a key give one hash. `hash_func_jenkins3.c`, on a
    little-endian machine. */
module Jenkins {
  import opened JenkinsMixing
  import opened Guards

  /** What reading needs of words: to add, and to put byte `b` at place `j` of a word, the lowest
      place being 0. */
  datatype Words<!W> = Words(zero: W, add: (W, W) -> W, byte: (bv8, nat) -> W)

  ghost predicate Sums<W(!new)>(o: Words<W>) {
    forall z {:trigger Open(z)} :: Open(z) ==> SumsHere(o)
  }

  ghost predicate SumsHere<W(!new)>(o: Words<W>) {
    && (forall x {:trigger o.add(x, o.zero)} :: o.add(x, o.zero) == x)
    && (forall x, y {:trigger o.add(x, y)} :: o.add(x, y) == o.add(y, x))
    && (forall x, y, z {:trigger o.add(o.add(x, y), z)} :: o.add(o.add(x, y), z) == o.add(x, o.add(y, z)))
  }

  /** What is done to the internal state after each block, and after the last one. */
  datatype Mixer<!W> = Mixer(mix: Trip<W> -> Trip<W>, final: Trip<W> -> Trip<W>)

  // ----- the reference --------------------------------------------------------------------------

  /** Byte `i`, at its place in a word; bytes past the end count as zero. */
  function At<W>(o: Words<W>, s: seq<bv8>, i: nat, j: nat): W {
    if i < |s| then o.byte(s[i], j) else o.zero
  }

  /** The word at `i`, the first byte lowest. */
  function Little<W>(o: Words<W>, s: seq<bv8>, i: nat): W {
    o.add(o.add(o.add(At(o, s, i, 0), At(o, s, i + 1, 1)), At(o, s, i + 2, 2)), At(o, s, i + 3, 3))
  }

  function AddBlock<W>(o: Words<W>, t: Trip<W>, s: seq<bv8>): Trip<W> {
    Trip(o.add(t.a, Little(o, s, 0)), o.add(t.b, Little(o, s, 4)), o.add(t.c, Little(o, s, 8)))
  }

  function Blocks<W>(o: Words<W>, m: Mixer<W>, s: seq<bv8>, t: Trip<W>): W {
    if |s| > 12 then Blocks(o, m, s[12..], m.mix(AddBlock(o, t, s[..12])))
    else if |s| > 0 then m.final(AddBlock(o, t, s)).c
    else t.c
  }

  // ----- the three ways to read -----------------------------------------------------------------

  /** By 32-bit words, the odd bytes one by one: the `m` bytes, up to four, of `s` from `i` on. */
  function Read32<W>(o: Words<W>, x: W, s: seq<bv8>, i: nat, m: nat): W {
    match m
    case 0 => x
    case 1 => o.add(x, At(o, s, i, 0))
    case 2 => o.add(o.add(x, At(o, s, i + 1, 1)), At(o, s, i, 0))
    case 3 => o.add(o.add(o.add(x, At(o, s, i + 2, 2)), At(o, s, i + 1, 1)), At(o, s, i, 0))
    case _ => o.add(x, Little(o, s, i))
  }

  /** A 16-bit word, and one in the upper half. */
  function Half<W>(o: Words<W>, s: seq<bv8>, i: nat): W {
    o.add(At(o, s, i, 0), At(o, s, i + 1, 1))
  }

  function UpperHalf<W>(o: Words<W>, s: seq<bv8>, i: nat): W {
    o.add(At(o, s, i, 2), At(o, s, i + 1, 3))
  }

  /** By 16-bit words. */
  function Read16<W>(o: Words<W>, x: W, s: seq<bv8>, i: nat, m: nat): W {
    match m
    case 0 => x
    case 1 => o.add(x, At(o, s, i, 0))
    case 2 => o.add(x, Half(o, s, i))
    case 3 => o.add(o.add(x, At(o, s, i + 2, 2)), Half(o, s, i))
    case _ => o.add(x, o.add(Half(o, s, i), UpperHalf(o, s, i + 2)))
  }

  /** By bytes: upwards in the loop, downwards in the last block. */
  function Up8<W>(o: Words<W>, x: W, s: seq<bv8>, i: nat): W {
    o.add(o.add(o.add(o.add(x, At(o, s, i, 0)), At(o, s, i + 1, 1)), At(o, s, i + 2, 2)), At(o, s, i + 3, 3))
  }

  function Read8<W>(o: Words<W>, x: W, s: seq<bv8>, i: nat, m: nat): W {
    match m
    case 0 => x
    case 1 => o.add(x, At(o, s, i, 0))
    case 2 => o.add(o.add(x, At(o, s, i + 1, 1)), At(o, s, i, 0))
    case 3 => o.add(o.add(o.add(x, At(o, s, i + 2, 2)), At(o, s, i + 1, 1)), At(o, s, i, 0))
    case _ => o.add(o.add(o.add(o.add(x, At(o, s, i + 3, 3)), At(o, s, i + 2, 2)), At(o, s, i + 1, 1)), At(o, s, i, 0))
  }

  /** How many of the four bytes from `i` on there are. */
  function Have(n: nat, i: nat): nat {
    if n <= i then 0 else if n - i < 4 then n - i else 4
  }

  // Adding one by one, upwards or downwards, is adding at once.

  lemma Four<W(!new)>(o: Words<W>, x: W, p: W, q: W, r: W, s: W)
    requires Sums(o)
    ensures o.add(o.add(o.add(o.add(x, p), q), r), s) == o.add(x, o.add(o.add(o.add(p, q), r), s))
  {
    Assoc(o, x, p, q);
    Assoc(o, x, o.add(p, q), r);
    Assoc(o, x, o.add(o.add(p, q), r), s);
  }

  lemma Assoc<W(!new)>(o: Words<W>, x: W, y: W, z: W)
    requires Sums(o)
    ensures o.add(o.add(x, y), z) == o.add(x, o.add(y, z))
  {
    assert Open(0);
  }

  lemma Comm<W(!new)>(o: Words<W>, x: W, y: W)
    requires Sums(o)
    ensures o.add(x, y) == o.add(y, x)
  {
    assert Open(0);
  }

  lemma Zero<W(!new)>(o: Words<W>, x: W)
    requires Sums(o)
    ensures o.add(x, o.zero) == x
  {
    assert Open(0);
  }

  lemma Swap<W(!new)>(o: Words<W>, x: W, p: W, q: W)
    requires Sums(o)
    ensures o.add(o.add(x, p), q) == o.add(o.add(x, q), p)
  {
    Assoc(o, x, p, q);
    Assoc(o, x, q, p);
    Comm(o, p, q);
  }

  lemma Reverse3<W(!new)>(o: Words<W>, x: W, p: W, q: W, r: W)
    requires Sums(o)
    ensures o.add(o.add(o.add(x, r), q), p) == o.add(o.add(o.add(x, p), q), r)
  {
    Swap(o, o.add(x, r), q, p);
    Swap(o, x, r, p);
    Swap(o, o.add(x, p), r, q);
  }

  lemma Reverse4<W(!new)>(o: Words<W>, x: W, p: W, q: W, r: W, s: W)
    requires Sums(o)
    ensures o.add(o.add(o.add(o.add(x, s), r), q), p) == o.add(o.add(o.add(o.add(x, p), q), r), s)
  {
    Reverse3(o, o.add(x, s), p, q, r);
    Swap(o, x, s, p);
    Swap(o, o.add(x, p), s, q);
    Swap(o, o.add(o.add(x, p), q), s, r);
  }

  /** The bytes that there are, added downwards, are the word. */
  lemma Read8Adds<W(!new)>(o: Words<W>, x: W, s: seq<bv8>, i: nat)
    requires Sums(o)
    ensures Read8(o, x, s, i, Have(|s|, i)) == o.add(x, Little(o, s, i))
  {
    var p, q, r, u := At(o, s, i, 0), At(o, s, i + 1, 1), At(o, s, i + 2, 2), At(o, s, i + 3, 3);
    Four(o, x, p, q, r, u);
    Reverse4(o, x, p, q, r, u);
    Reverse3(o, x, p, q, r);
    Swap(o, x, q, p);
    Zeros(o, x, p, q, r, u);
  }

  /** Bytes that there are not add nothing. */
  lemma Zeros<W(!new)>(o: Words<W>, x: W, p: W, q: W, r: W, u: W)
    requires Sums(o)
    ensures var all := o.add(o.add(o.add(o.add(x, p), q), r), u);
      && (u == o.zero ==> all == o.add(o.add(o.add(x, p), q), r))
      && (u == o.zero && r == o.zero ==> all == o.add(o.add(x, p), q))
      && (u == o.zero && r == o.zero && q == o.zero ==> all == o.add(x, p))
      && (u == o.zero && r == o.zero && q == o.zero && p == o.zero ==> all == x)
  {
    Zero(o, x);
    Zero(o, o.add(x, p));
    Zero(o, o.add(o.add(x, p), q));
    Zero(o, o.add(o.add(o.add(x, p), q), r));
  }

  lemma Read32Adds<W(!new)>(o: Words<W>, x: W, s: seq<bv8>, i: nat)
    requires Sums(o)
    ensures Read32(o, x, s, i, Have(|s|, i)) == o.add(x, Little(o, s, i))
  {
    Read8Adds(o, x, s, i);
  }

  lemma Read16Adds<W(!new)>(o: Words<W>, x: W, s: seq<bv8>, i: nat)
    requires Sums(o)
    ensures Read16(o, x, s, i, Have(|s|, i)) == o.add(x, Little(o, s, i))
  {
    var p, q, r, u := At(o, s, i, 0), At(o, s, i + 1, 1), At(o, s, i + 2, 2), At(o, s, i + 3, 3);
    Read8Adds(o, x, s, i);
    Swap(o, x, q, p);
    Assoc(o, x, p, q);
    Assoc(o, o.add(x, r), q, p);
    Comm(o, p, q);
    Assoc(o, o.add(p, q), r, u);
  }

  lemma Up8Adds<W(!new)>(o: Words<W>, x: W, s: seq<bv8>, i: nat)
    requires Sums(o)
    ensures Up8(o, x, s, i) == o.add(x, Little(o, s, i))
  {
    Four(o, x, At(o, s, i, 0), At(o, s, i + 1, 1), At(o, s, i + 2, 2), At(o, s, i + 3, 3));
  }

  // ----- the three branches ---------------------------------------------------------------------

  /** The switch on the last one to twelve bytes. */
  function Last32<W>(o: Words<W>, t: Trip<W>, s: seq<bv8>): Trip<W> {
    Trip(Read32(o, t.a, s, 0, Have(|s|, 0)), Read32(o, t.b, s, 4, Have(|s|, 4)), Read32(o, t.c, s, 8, Have(|s|, 8)))
  }

  lemma Last32Adds<W(!new)>(o: Words<W>, t: Trip<W>, s: seq<bv8>)
    requires Sums(o)
    ensures Last32(o, t, s) == AddBlock(o, t, s)
  {
    Read32Adds(o, t.a, s, 0);
    Read32Adds(o, t.b, s, 4);
    Read32Adds(o, t.c, s, 8);
  }

  /** The branch for addresses divisible by four. */
  method Hash32<W(!new)>(o: Words<W>, m: Mixer<W>, key: seq<bv8>, t0: Trip<W>) returns (h: W)
    requires Sums(o)
    ensures h == Blocks(o, m, key, t0)
  {
    var t, i := t0, 0;
    while |key| - i > 12
      invariant 0 <= i <= |key| && Blocks(o, m, key[i..], t) == Blocks(o, m, key, t0)
    {
      var k := key[i..i + 12];
      assert key[i..][..12] == k && key[i..][12..] == key[i + 12..];
      t := m.mix(AddBlock(o, t, k));
      i := i + 12;
    }
    var s := key[i..];
    if |s| == 0 {
      return t.c;
    }
    Last32Adds(o, t, s);
    h := m.final(Last32(o, t, s)).c;
  }

  /** The switch on the last one to twelve bytes. */
  function Last16<W>(o: Words<W>, t: Trip<W>, s: seq<bv8>): Trip<W> {
    Trip(Read16(o, t.a, s, 0, Have(|s|, 0)), Read16(o, t.b, s, 4, Have(|s|, 4)), Read16(o, t.c, s, 8, Have(|s|, 8)))
  }

  lemma Last16Adds<W(!new)>(o: Words<W>, t: Trip<W>, s: seq<bv8>)
    requires Sums(o)
    ensures Last16(o, t, s) == AddBlock(o, t, s)
  {
    Read16Adds(o, t.a, s, 0);
    Read16Adds(o, t.b, s, 4);
    Read16Adds(o, t.c, s, 8);
  }

  /** Twelve bytes in the loop. */
  function Block16<W>(o: Words<W>, t: Trip<W>, s: seq<bv8>): Trip<W> {
    Trip(Read16(o, t.a, s, 0, 4), Read16(o, t.b, s, 4, 4), Read16(o, t.c, s, 8, 4))
  }

  lemma Block16Adds<W(!new)>(o: Words<W>, t: Trip<W>, s: seq<bv8>)
    requires Sums(o) && |s| == 12
    ensures Block16(o, t, s) == AddBlock(o, t, s)
  {
    Last16Adds(o, t, s);
  }

  /** The branch for the other even addresses. */
  method Hash16<W(!new)>(o: Words<W>, m: Mixer<W>, key: seq<bv8>, t0: Trip<W>) returns (h: W)
    requires Sums(o)
    ensures h == Blocks(o, m, key, t0)
  {
    var t, i := t0, 0;
    while |key| - i > 12
      invariant 0 <= i <= |key| && Blocks(o, m, key[i..], t) == Blocks(o, m, key, t0)
    {
      var k := key[i..i + 12];
      assert key[i..][..12] == k && key[i..][12..] == key[i + 12..];
      Block16Adds(o, t, k);
      t := m.mix(Block16(o, t, k));
      i := i + 12;
    }
    var s := key[i..];
    if |s| == 0 {
      return t.c;
    }
    Last16Adds(o, t, s);
    h := m.final(Last16(o, t, s)).c;
  }

  /** The switch on the last one to twelve bytes. */
  function Last8<W>(o: Words<W>, t: Trip<W>, s: seq<bv8>): Trip<W> {
    Trip(Read8(o, t.a, s, 0, Have(|s|, 0)), Read8(o, t.b, s, 4, Have(|s|, 4)), Read8(o, t.c, s, 8, Have(|s|, 8)))
  }

  lemma Last8Adds<W(!new)>(o: Words<W>, t: Trip<W>, s: seq<bv8>)
    requires Sums(o)
    ensures Last8(o, t, s) == AddBlock(o, t, s)
  {
    Read8Adds(o, t.a, s, 0);
    Read8Adds(o, t.b, s, 4);
    Read8Adds(o, t.c, s, 8);
  }

  /** Twelve bytes in the loop. */
  function Block8<W>(o: Words<W>, t: Trip<W>, s: seq<bv8>): Trip<W> {
    Trip(Up8(o, t.a, s, 0), Up8(o, t.b, s, 4), Up8(o, t.c, s, 8))
  }

  lemma Block8Adds<W(!new)>(o: Words<W>, t: Trip<W>, s: seq<bv8>)
    requires Sums(o)
    ensures Block8(o, t, s) == AddBlock(o, t, s)
  {
    Up8Adds(o, t.a, s, 0);
    Up8Adds(o, t.b, s, 4);
    Up8Adds(o, t.c, s, 8);
  }

  /** The branch for odd addresses. */
  method Hash8<W(!new)>(o: Words<W>, m: Mixer<W>, key: seq<bv8>, t0: Trip<W>) returns (h: W)
    requires Sums(o)
    ensures h == Blocks(o, m, key, t0)
  {
    var t, i := t0, 0;
    while |key| - i > 12
      invariant 0 <= i <= |key| && Blocks(o, m, key[i..], t) == Blocks(o, m, key, t0)
    {
      var k := key[i..i + 12];
      assert key[i..][..12] == k && key[i..][12..] == key[i + 12..];
      Block8Adds(o, t, k);
      t := m.mix(Block8(o, t, k));
      i := i + 12;
    }
    var s := key[i..];
    if |s| == 0 {
      return t.c;
    }
    Last8Adds(o, t, s);
    h := m.final(Last8(o, t, s)).c;
  }

  // ----- 32-bit words ---------------------------------------------------------------------------

  function Byte(b: bv8, j: nat): bv32 {
    if j == 0 then b as bv32 else if j == 1 then (b as bv32) << 8 else if j == 2 then (b as bv32) << 16 else (b as bv32) << 24
  }

  const UINT32: Words<bv32> := Words(0, Add, Byte)

  const LOOKUP3: Mixer<bv32> := Mixer(Mix, Final)

  lemma AddZero(x: bv32)
    ensures Add(x, 0) == x
  {}

  lemma AddComm(x: bv32, y: bv32)
    ensures Add(x, y) == Add(y, x)
  {
    AddIs(x, y);
    AddIs(y, x);
  }

  lemma AddSums(x: bv32, y: bv32, z: bv32)
    ensures Add(x + y, z) == Add(x, y + z)
  {}

  lemma AddAssoc(x: bv32, y: bv32, z: bv32)
    ensures Add(Add(x, y), z) == Add(x, Add(y, z))
  {
    AddSums(x, y, z);
    AddIs(x, y);
    AddIs(y, z);
  }

  lemma Uint32Sums()
    ensures Sums(UINT32)
  {
    forall x: bv32
      ensures UINT32.add(x, UINT32.zero) == x
    {
      AddZero(x);
    }
    forall x: bv32, y: bv32
      ensures UINT32.add(x, y) == UINT32.add(y, x)
    {
      AddComm(x, y);
    }
    forall x: bv32, y: bv32, z: bv32
      ensures UINT32.add(UINT32.add(x, y), z) == UINT32.add(x, UINT32.add(y, z))
    {
      AddAssoc(x, y, z);
    }
  }

  /** `a = b = c = 0xdeadbeef + length + initval` */
  function Start(len: bv32, initval: bv32): Trip<bv32> {
    var x := Add(Add(0xdeadbeef, len), initval);
    Trip(x, x, x)
  }

  function Length(key: seq<bv8>): bv32 {
    (|key| % 0x1_0000_0000) as bv32
  }

  /** The hash of a key. */
  function Lookup3(key: seq<bv8>, initval: bv32): bv32 {
    Blocks(UINT32, LOOKUP3, key, Start(Length(key), initval))
  }

  /** `hashlittle` for a key whose address has the remainder `align` modulo four: the three branches
      give one and the same hash. */
  method HashLittle(key: seq<bv8>, align: nat, initval: bv32) returns (h: bv32)
    requires align < 4
    ensures h == Lookup3(key, initval)
  {
    Uint32Sums();
    var t := Start(Length(key), initval);
    if align % 4 == 0 {
      h := Hash32(UINT32, LOOKUP3, key, t);
    } else if align % 2 == 0 {
      h := Hash16(UINT32, LOOKUP3, key, t);
    } else {
      h := Hash8(UINT32, LOOKUP3, key, t);
    }
  }

  // ----- a key and its hash ---------------------------------------------------------------------

  /** "Four score and seven years ago" */
  const SPEECH: seq<bv8> := [
    0x46, 0x6f, 0x75, 0x72, 0x20, 0x73, 0x63, 0x6f, 0x72, 0x65, 0x20, 0x61,
    0x6e, 0x64, 0x20, 0x73, 0x65, 0x76, 0x65, 0x6e, 0x20, 0x79, 0x65, 0x61,
    0x72, 0x73, 0x20, 0x61, 0x67, 0x6f]

  function Quad(b0: bv8, b1: bv8, b2: bv8, b3: bv8): bv32 {
    Add(Add(Add(Byte(b0, 0), Byte(b1, 1)), Byte(b2, 2)), Byte(b3, 3))
  }

  lemma Quads()
    ensures Quad(0x46, 0x6f, 0x75, 0x72) == 0x72756f46 && Quad(0x20, 0x73, 0x63, 0x6f) == 0x6f637320
    ensures Quad(0x72, 0x65, 0x20, 0x61) == 0x61206572 && Quad(0x6e, 0x64, 0x20, 0x73) == 0x7320646e
    ensures Quad(0x65, 0x76, 0x65, 0x6e) == 0x6e657665 && Quad(0x20, 0x79, 0x65, 0x61) == 0x61657920
    ensures Quad(0x72, 0x73, 0x20, 0x61) == 0x61207372 && Add(Add(Add(Byte(0x67, 0), Byte(0x6f, 1)), 0), 0) == 0x6f67
    ensures Add(Add(Add(0, 0), 0), 0) == 0
  {}

  lemma LittleQuad(s: seq<bv8>, i: nat, b0: bv8, b1: bv8, b2: bv8, b3: bv8)
    requires i + 4 <= |s| && s[i] == b0 && s[i + 1] == b1 && s[i + 2] == b2 && s[i + 3] == b3
    ensures Little(UINT32, s, i) == Quad(b0, b1, b2, b3)
  {}

  lemma LittlePair(s: seq<bv8>, i: nat, b0: bv8, b1: bv8)
    requires i + 2 == |s| && s[i] == b0 && s[i + 1] == b1
    ensures Little(UINT32, s, i) == Add(Add(Add(Byte(b0, 0), Byte(b1, 1)), 0), 0)
    ensures Little(UINT32, s, i + 4) == Add(Add(Add(0, 0), 0), 0)
  {}

  lemma SpeechWord0()
    ensures Little(UINT32, SPEECH, 0) == 0x72756f46
  {
    Quads();
    LittleQuad(SPEECH, 0, 0x46, 0x6f, 0x75, 0x72);
  }

  lemma SpeechWord1()
    ensures Little(UINT32, SPEECH, 4) == 0x6f637320
  {
    Quads();
    LittleQuad(SPEECH, 4, 0x20, 0x73, 0x63, 0x6f);
  }

  lemma SpeechWord2()
    ensures Little(UINT32, SPEECH, 8) == 0x61206572
  {
    Quads();
    LittleQuad(SPEECH, 8, 0x72, 0x65, 0x20, 0x61);
  }

  lemma SpeechWord3()
    ensures Little(UINT32, SPEECH, 12) == 0x7320646e
  {
    Quads();
    LittleQuad(SPEECH, 12, 0x6e, 0x64, 0x20, 0x73);
  }

  lemma SpeechWord4()
    ensures Little(UINT32, SPEECH, 16) == 0x6e657665
  {
    Quads();
    LittleQuad(SPEECH, 16, 0x65, 0x76, 0x65, 0x6e);
  }

  lemma SpeechWord5()
    ensures Little(UINT32, SPEECH, 20) == 0x61657920
  {
    Quads();
    LittleQuad(SPEECH, 20, 0x20, 0x79, 0x65, 0x61);
  }

  lemma SpeechWord6()
    ensures Little(UINT32, SPEECH, 24) == 0x61207372
  {
    Quads();
    LittleQuad(SPEECH, 24, 0x72, 0x73, 0x20, 0x61);
  }

  lemma SpeechEnd()
    ensures Little(UINT32, SPEECH, 28) == 0x6f67 && Little(UINT32, SPEECH, 32) == 0
  {
    Quads();
    LittlePair(SPEECH, 28, 0x67, 0x6f);
  }

  /** The words of a part of a key. */
  lemma LittlePart<W>(o: Words<W>, s: seq<bv8>, i: nat, j: nat, k: nat)
    requires i <= j <= |s| && (j == |s| || i + k + 4 <= j)
    ensures Little(o, s[i..j], k) == Little(o, s, i + k)
  {}

  lemma PartBlock<W>(o: Words<W>, t: Trip<W>, s: seq<bv8>, i: nat, j: nat)
    requires i <= j <= |s| && (j == i + 12 || j == |s| <= i + 12)
    ensures AddBlock(o, t, s[i..j]) == Trip(o.add(t.a, Little(o, s, i)), o.add(t.b, Little(o, s, i + 4)), o.add(t.c, Little(o, s, i + 8)))
  {
    LittlePart(o, s, i, j, 0);
    LittlePart(o, s, i, j, 4);
    LittlePart(o, s, i, j, 8);
  }

  /** A block of a key, and the last one. */
  lemma NextBlock<W>(o: Words<W>, m: Mixer<W>, s: seq<bv8>, i: nat, t: Trip<W>, u: Trip<W>)
    requires i + 12 < |s| && u == m.mix(Trip(o.add(t.a, Little(o, s, i)), o.add(t.b, Little(o, s, i + 4)), o.add(t.c, Little(o, s, i + 8))))
    ensures Blocks(o, m, s[i..], t) == Blocks(o, m, s[i + 12..], u)
  {
    assert s[i..][..12] == s[i..i + 12] && s[i..][12..] == s[i + 12..];
    PartBlock(o, t, s, i, i + 12);
  }

  lemma EndBlock<W>(o: Words<W>, m: Mixer<W>, s: seq<bv8>, i: nat, t: Trip<W>)
    requires i < |s| <= i + 12
    ensures Blocks(o, m, s[i..], t) == m.final(Trip(o.add(t.a, Little(o, s, i)), o.add(t.b, Little(o, s, i + 4)), o.add(t.c, Little(o, s, i + 8)))).c
  {
    assert s[i..] == s[i..|s|];
    PartBlock(o, t, s, i, |s|);
  }

  /** Two blocks and the rest. */
  lemma Unrolled<W>(o: Words<W>, m: Mixer<W>, s: seq<bv8>, t: Trip<W>, t1: Trip<W>, t2: Trip<W>)
    requires 24 < |s| <= 36
    requires t1 == m.mix(Trip(o.add(t.a, Little(o, s, 0)), o.add(t.b, Little(o, s, 4)), o.add(t.c, Little(o, s, 8))))
    requires t2 == m.mix(Trip(o.add(t1.a, Little(o, s, 12)), o.add(t1.b, Little(o, s, 16)), o.add(t1.c, Little(o, s, 20))))
    ensures Blocks(o, m, s, t) == m.final(Trip(o.add(t2.a, Little(o, s, 24)), o.add(t2.b, Little(o, s, 28)), o.add(t2.c, Little(o, s, 32)))).c
  {
    assert s == s[0..];
    NextBlock(o, m, s, 0, t, t1);
    NextBlock(o, m, s, 12, t1, t2);
    EndBlock(o, m, s, 24, t2);
  }

  /** The state after each step, for the start values 0 and 1. */
  lemma SpeechSteps0()
    ensures Mix(Trip(Add(0xdeadbf0d, 0x72756f46), Add(0xdeadbf0d, 0x6f637320), Add(0xdeadbf0d, 0x61206572))) == Trip(0xf859ad7a, 0x4bc57ae, 0x40dddd7e)
    ensures Mix(Trip(Add(0xf859ad7a, 0x7320646e), Add(0x4bc57ae, 0x6e657665), Add(0x40dddd7e, 0x61657920))) == Trip(0x336aded2, 0x59f2642, 0xbd02ebd5)
    ensures Final(Trip(Add(0x336aded2, 0x61207372), Add(0x59f2642, 0x6f67), Add(0xbd02ebd5, 0))).c == 0x17770551
  {}

  lemma SpeechSteps1()
    ensures Mix(Trip(Add(0xdeadbf0e, 0x72756f46), Add(0xdeadbf0e, 0x6f637320), Add(0xdeadbf0e, 0x61206572))) == Trip(0x9fb9ade6, 0x89211ba9, 0x3ffff143)
    ensures Mix(Trip(Add(0x9fb9ade6, 0x7320646e), Add(0x89211ba9, 0x6e657665), Add(0x3ffff143, 0x61657920))) == Trip(0xd68042ad, 0x488e0a5d, 0xab16e7b2)
    ensures Final(Trip(Add(0xd68042ad, 0x61207372), Add(0x488e0a5d, 0x6f67), Add(0xab16e7b2, 0))).c == 0xcd628161
  {}

  lemma Starts()
    ensures Start(30, 0).a == 0xdeadbf0d && Start(30, 1).a == 0xdeadbf0e && Start(0, 0).c == 0xdeadbeef
    ensures (30 % 0x1_0000_0000) as bv32 == 30 && (0 % 0x1_0000_0000) as bv32 == 0
  {}

  /** A key with its published hashes, for the start values 0 and 1; and the empty key. */
  lemma KnownHashes()
    ensures Lookup3(SPEECH, 0) == 0x17770551 && Lookup3(SPEECH, 1) == 0xcd628161 && Lookup3([], 0) == 0xdeadbeef
  {
    Starts();
    SpeechWord0();
    SpeechWord1();
    SpeechWord2();
    SpeechWord3();
    SpeechWord4();
    SpeechWord5();
    SpeechWord6();
    SpeechEnd();
    SpeechSteps0();
    SpeechSteps1();
    Unrolled(UINT32, LOOKUP3, SPEECH, Start(30, 0), Trip(0xf859ad7a, 0x4bc57ae, 0x40dddd7e), Trip(0x336aded2, 0x59f2642, 0xbd02ebd5));
    Unrolled(UINT32, LOOKUP3, SPEECH, Start(30, 1), Trip(0x9fb9ade6, 0x89211ba9, 0x3ffff143), Trip(0xd68042ad, 0x488e0a5d, 0xab16e7b2));
  }

  /** The same at every address. */
  method KnownKeys(align: nat) returns (zero: bv32, one: bv32, none: bv32)
    requires align < 4
    ensures zero == 0x17770551 && one == 0xcd628161 && none == 0xdeadbeef
  {
    zero := HashLittle(SPEECH, align, 0);
    one := HashLittle(SPEECH, align, 1);
    none := HashLittle([], align, 0);
    KnownHashes();
  }
}
