/** The Bloom filter of `hi_bloom_filter.c`: a bit map that never forgets a key. */
module Bloom {

  type Octet = b: seq<bool> | |b| == 8 witness [false, false, false, false, false, false, false, false]

  class Filter<K(==)> {
    const hashes: seq<K -> nat>      // lhi_hashmap
    const m: nat
    const k: nat
    const bits: array<Octet>         // filter_map
    var n: nat
    var bitCollision: nat
    ghost var ones: set<nat>         // the numbers of the bits that are set
    ghost var added: seq<K>

    /** Bit `b` is bit `b & 7` of byte `b / 8`. */
    predicate Bit(b: nat)
      requires b / 8 < bits.Length
      reads bits
    {
      bits[b / 8][b % 8]
    }

    ghost predicate Shape()
      reads this, bits
    {
      && m > 0 && k <= |hashes| && bits.Length == (m + 7) / 8
      && (forall b :: b in ones ==> b < m) && (forall b :: 0 <= b < m ==> b / 8 < bits.Length && (Bit(b) <==> b in ones))
    }

    /** The bits that are set are those of the keys that were added, and every bit that was asked for
        is either a bit that is set or a collision. */
    ghost predicate Valid()
      reads this, bits
    {
      && Shape() && n == |added| && |ones| + bitCollision == k * n && ones == PlacesOf(added)
    }

    ghost function Places(key: K): set<nat>
      requires k <= |hashes| && m > 0
    {
      PlacesTo(key, k)
    }

    ghost function PlacesTo(key: K, n: nat): set<nat>
      requires n <= k <= |hashes| && m > 0
    {
      if n == 0 then {} else PlacesTo(key, n - 1) + {Place(key, n - 1)}
    }

    lemma {:induction false} PlacesToIn(key: K, n: nat, b: nat)
      requires n <= k <= |hashes| && m > 0
      ensures b in PlacesTo(key, n) <==> exists j :: 0 <= j < n && Place(key, j) == b
    {
      if n > 0 { PlacesToIn(key, n - 1, b); }
    }

    ghost function PlacesOf(keys: seq<K>): set<nat>
      requires k <= |hashes| && m > 0
    {
      if keys == [] then {} else PlacesOf(keys[..|keys| - 1]) + Places(keys[|keys| - 1])
    }

    lemma {:induction false} PlacesIn(keys: seq<K>, key: K)
      requires k <= |hashes| && m > 0 && key in keys
      ensures Places(key) <= PlacesOf(keys)
    {
      if keys[|keys| - 1] != key {
        PlacesIn(keys[..|keys| - 1], key);
      }
    }

    lemma {:induction false} PlacesFrom(keys: seq<K>, b: nat)
      requires k <= |hashes| && m > 0
      ensures b in PlacesOf(keys) <==> exists i :: 0 <= i < |keys| && b in Places(keys[i])
    {
      if keys != [] {
        var init := keys[..|keys| - 1];
        PlacesFrom(init, b);
        if b in PlacesOf(init) {
          var i :| 0 <= i < |init| && b in Places(init[i]);
          assert b in Places(keys[i]);
        }
        if i :| 0 <= i < |keys| && b in Places(keys[i]) {
          assert i < |keys| - 1 ==> init[i] == keys[i];
        }
      }
    }

    function Place(key: K, j: nat): nat
      requires j < |hashes| && m > 0
    {
      hashes[j](key) % m
    }

    constructor (hashes: seq<K -> nat>, m: nat, k: nat)
      requires m > 0 && k <= |hashes|
      ensures Valid() && added == [] && fresh(bits) && this.hashes == hashes && this.m == m && this.k == k
    {
      this.hashes, this.m, this.k, this.n, this.bitCollision := hashes, m, k, 0, 0;
      this.ones, this.added := {}, [];
      bits := new Octet[(m + 7) / 8](_ => [false, false, false, false, false, false, false, false]);
    }

    /** The body of the loop in `hi_bloom_filter_add`. */
    method Set(b: nat)
      requires Shape() && b < m
      modifies this`ones, this`bitCollision, bits
      ensures Shape() && ones == old(ones) + {b}
      ensures |ones| + bitCollision == |old(ones)| + old(bitCollision) + 1
    {
      var offset, bit := b / 8, b % 8;
      OneBitMore(ones, b);
      assert Bit(b) <==> b in ones;
      if bits[offset][bit] {
        bitCollision := bitCollision + 1;
      }
      bits[offset] := bits[offset][bit := true];
      ones := ones + {b};
      forall c | 0 <= c < m
        ensures c / 8 < bits.Length && (Bit(c) <==> c in ones)
      {
        SameBit(b, c);
        assert c / 8 < bits.Length && (old(Bit(c)) <==> c in old(ones));
      }
    }

    /** One round of the loop. */
    method SetOne(key: K, iter: nat, ghost was: set<nat>)
      requires Shape() && iter < k && ones == was + PlacesTo(key, iter)
      modifies this`ones, this`bitCollision, bits
      ensures Shape() && ones == was + PlacesTo(key, iter + 1)
      ensures |ones| + bitCollision == |old(ones)| + old(bitCollision) + 1
    {
      var b := hashes[iter](key) % m;
      Union(was, PlacesTo(key, iter), b);
      Set(b);
    }

    /** The loop of `hi_bloom_filter_add`. */
    method SetAll(key: K)
      requires Shape()
      modifies this`ones, this`bitCollision, bits
      ensures Shape() && ones == old(ones) + Places(key) && |ones| + bitCollision == |old(ones)| + old(bitCollision) + k
    {
      ghost var asked, was := |ones| + bitCollision, ones;
      var iter := 0;
      while iter < k
        invariant 0 <= iter <= k && Shape() && |ones| + bitCollision == asked + iter
        invariant ones == was + PlacesTo(key, iter)
      {
        SetOne(key, iter, was);
        iter := iter + 1;
      }
    }

    /** `hi_bloom_filter_add` */
    method Add(key: K)
      requires Valid()
      modifies this, bits
      ensures Valid() && added == old(added) + [key] && ones == old(ones) + Places(key)
    {
      OneMore(k, n);
      n := n + 1;
      SetAll(key);
      added := added + [key];
      assert added[..|added| - 1] == old(added);
    }

    /** `hi_bloom_filter_check`: never a miss for a key that was added, and a hit only if each of its
        bits is one of a key that was added. */
    method Check(key: K) returns (found: bool)
      requires Valid()
      ensures found <==> Places(key) <= PlacesOf(added)
      ensures key in added ==> found
    {
      if key in added {
        PlacesIn(added, key);
      }
      found := AllSet(key);
    }

    /** The loop of `hi_bloom_filter_check`. */
    method AllSet(key: K) returns (found: bool)
      requires Shape()
      ensures found <==> PlacesTo(key, k) <= ones
    {
      var iter := 0;
      while iter < k
        invariant 0 <= iter <= k && PlacesTo(key, iter) <= ones
      {
        var isSet := IsSet(hashes[iter](key) % m);
        if !isSet {
          OneMissing(key, iter);
          return false;
        }
        iter := iter + 1;
      }
      return true;
    }

    lemma OneMissing(key: K, j: nat)
      requires j < k <= |hashes| && m > 0 && Place(key, j) !in ones
      ensures !(PlacesTo(key, k) <= ones)
    {
      PlacesToIn(key, k, Place(key, j));
    }

    /** `filter_map[bit / 8] & (1 << (bit & 7))` */
    method IsSet(bit: nat) returns (r: bool)
      requires Shape() && bit < m
      ensures r <==> bit in ones
    {
      assert Bit(bit) <==> bit in ones;
      r := bits[bit / 8][bit % 8];
    }
  }

  lemma OneBitMore(ones: set<nat>, b: nat)
    ensures |ones + {b}| == |ones| + if b in ones then 0 else 1
  {
    assert b in ones ==> ones + {b} == ones;
  }

  lemma SameBit(b: nat, c: nat)
    ensures b / 8 == c / 8 && b % 8 == c % 8 <==> b == c
  {}

  lemma Union<T>(a: set<T>, b: set<T>, x: T)
    ensures a + b + {x} == a + (b + {x})
  {}

  lemma OneMore(k: nat, n: nat)
    ensures k * (n + 1) == k * n + k
  {}
}
