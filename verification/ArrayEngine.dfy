/** The array engine: a bucket is an array of slots, some free. A scan stops as soon as it has seen
    as many live slots as there are entries. `hi_array.c` for COLL_ENG_ARRAY. */
module ArrayEngine {
  import opened Entries
  import opened Options

  datatype Slot = NotAllocated | Allocated(entry: Entry)

  /** The entries of the live slots, in slot order. */
  function Live(s: seq<Slot>): seq<Entry> {
    if s == [] then []
    else
      var r := Live(s[..|s| - 1]);
      if s[|s| - 1].Allocated? then r + [s[|s| - 1].entry] else r
  }

  lemma LiveSnoc(s: seq<Slot>, x: Slot)
    ensures Live(s + [x]) == if x.Allocated? then Live(s) + [x.entry] else Live(s)
  {
    assert (s + [x])[..|s|] == s;
  }

  lemma {:induction false} LiveConcat(s: seq<Slot>, t: seq<Slot>)
    ensures Live(s + t) == Live(s) + Live(t)
  {
    if t == [] {
      assert s + t == s;
    } else {
      var u, x := t[..|t| - 1], t[|t| - 1];
      LiveConcat(s, u);
      LiveSnoc(s + u, x);
      assert s + u + [x] == s + t;
    }
  }

  /** The slot at position `i`, and what is before and after it. */
  lemma LiveAt(s: seq<Slot>, i: nat)
    requires i < |s|
    ensures s[i].Allocated? ==> Live(s) == Live(s[..i]) + [s[i].entry] + Live(s[i + 1..])
    ensures s[i].NotAllocated? ==> Live(s) == Live(s[..i]) + Live(s[i + 1..])
  {
    assert s == s[..i] + [s[i]] + s[i + 1..];
    LiveConcat(s[..i] + [s[i]], s[i + 1..]);
    LiveSnoc(s[..i], s[i]);
  }

  /** Filling a free slot and freeing a live one. */
  lemma LiveFilled(s: seq<Slot>, i: nat, e: Entry)
    requires i < |s| && s[i].NotAllocated?
    ensures |Live(s[..i])| <= |Live(s)| && Live(s[i := Allocated(e)]) == Added(Live(s), |Live(s[..i])|, e)
  {
    var t := s[i := Allocated(e)];
    LiveAt(s, i);
    LiveAt(t, i);
    assert t[..i] == s[..i] && t[i + 1..] == s[i + 1..];
  }

  lemma LiveFreed(s: seq<Slot>, i: nat)
    requires i < |s| && s[i].Allocated?
    ensures |Live(s[..i])| < |Live(s)| && Live(s)[|Live(s[..i])|] == s[i].entry
    ensures Live(s[i := NotAllocated]) == Removed(Live(s), |Live(s[..i])|)
  {
    var t := s[i := NotAllocated];
    LiveAt(s, i);
    LiveAt(t, i);
    assert t[..i] == s[..i] && t[i + 1..] == s[i + 1..];
  }

  lemma {:induction false} AllLive(s: seq<Slot>)
    ensures |Live(s)| <= |s|
    ensures (forall i :: 0 <= i < |s| ==> s[i].Allocated?) <==> |Live(s)| == |s|
  {
    if s != [] { AllLive(s[..|s| - 1]); }
  }

  lemma {:induction false} NoneLive(s: seq<Slot>)
    requires forall i :: 0 <= i < |s| ==> s[i].NotAllocated?
    ensures Live(s) == []
  {
    if s != [] { NoneLive(s[..|s| - 1]); }
  }

  // ----- the snapshot for iterators -------------------------------------------------------------

  /** No hole before the last live slot. */
  ghost predicate Packed(s: seq<Slot>) {
    |Live(s)| <= |s| && forall i :: 0 <= i < |Live(s)| ==> s[i].Allocated?
  }

  /** What the program copies: the live ones of the first `n` slots. What it does not write of the
      copy is left as it was allocated. */
  ghost function Copied(s: seq<Slot>, n: nat): seq<Option<Entry>>
    requires n <= |s|
  {
    AllLive(s[..n]);
    Somes(Live(s[..n])) + seq(n - |Live(s[..n])|, _ => None)
  }

  lemma PackedParts(s: seq<Slot>, n: nat)
    requires n == |Live(s)|
    ensures n <= |s| && Live(s) == Live(s[..n]) + Live(s[n..]) && (Packed(s) <==> |Live(s[..n])| == n)
  {
    AllLive(s);
    AllLive(s[..n]);
    LivePrefix(s, n);
    assert forall i :: 0 <= i < n ==> s[..n][i] == s[i];
  }

  lemma SomeLive(s: seq<Slot>)
    requires Live(s) != []
    ensures exists i :: 0 <= i < |s| && s[i].Allocated?
  {
    if forall i :: 0 <= i < |s| ==> s[i].NotAllocated? {
      NoneLive(s);
    }
  }

  /** The copy of a bucket is its entries exactly if it has no holes; otherwise the end of the copy
      is not written, and there is an entry behind the slots that are copied. */
  lemma CopyIff(s: seq<Slot>, n: nat)
    requires n == |Live(s)|
    ensures n <= |s| && |Copied(s, n)| == n && (Copied(s, n) == Somes(Live(s)) <==> Packed(s))
    ensures !Packed(s) ==> n > 0 && Copied(s, n)[n - 1] == None && exists i :: n <= i < |s| && s[i].Allocated?
  {
    PackedParts(s, n);
    AllLive(s[..n]);
    if Packed(s) {
      assert Live(s[n..]) == [];
      assert Live(s[..n]) == Live(s);
      assert Copied(s, n) == Somes(Live(s));
    } else {
      assert Copied(s, n)[n - 1] == None != Somes(Live(s))[n - 1];
      SomeLive(s[n..]);
      var i :| 0 <= i < |s[n..]| && s[n..][i].Allocated?;
      assert s[n + i].Allocated?;
    }
  }

  lemma NoneBehind(s: seq<Slot>, i: nat)
    requires Packed(s) && |Live(s)| <= i < |s|
    ensures s[i].NotAllocated?
  {
    var n := |Live(s)|;
    PackedParts(s, n);
    LiveAt(s[n..], i - n);
    assert s[n..][i - n] == s[i];
  }

  class ArrayBucket {
    var slots: array<Slot>      // its length is slot_max
    var slotSize: nat

    ghost predicate Valid()
      reads this, slots
    {
      slots.Length > 0 && slotSize == |Contents()| && Unique(Contents())
    }

    ghost function Contents(): seq<Entry>
      reads this, slots
    {
      Live(slots[..])
    }

    /** No hole before the last entry. */
    ghost predicate Dense()
      reads this, slots
    {
      Packed(slots[..])
    }

    constructor (size: nat)
      requires size > 0
      ensures Valid() && Contents() == [] && fresh(slots) && Dense()
    {
      slots := new Slot[size](_ => NotAllocated);
      slotSize := 0;
      new;
      NoneLive(slots[..]);
    }

    /** The scan that get and remove share, with its early stop: the slot with the key, if any. */
    method Find(cmp: (Key, Key) -> int, key: Key) returns (found: bool, i: nat)
      requires Valid() && forall a, b :: cmp(a, b) == 0 <==> a == b
      ensures found ==> i < slots.Length && slots[i].Allocated? && slots[i].entry.key == key
      ensures found <==> HasKey(Contents(), key)
    {
      i := 0;
      var checked := 0;
      while i < slots.Length
        invariant 0 <= i <= slots.Length && checked == |Live(slots[..i])|
        invariant !HasKey(Live(slots[..i]), key)
      {
        LiveAt(slots[..], i);
        LivePrefix(slots[..], i);
        if checked >= slotSize {
          Stopped(slots[..], i);
          return false, i;
        }
        LiveSnoc(slots[..i], slots[i]);
        assert slots[..i + 1] == slots[..i] + [slots[i]];
        if slots[i].Allocated? {
          if cmp(key, slots[i].entry.key) == 0 {
            assert Contents()[checked].key == key;
            return true, i;
          }
          checked := checked + 1;
        }
        i := i + 1;
      }
      assert slots[..i] == slots[..];
      return false, i;
    }

    /** `lhi_get_array` */
    method Get(cmp: (Key, Key) -> int, key: Key) returns (st: Status, res: Option<Data>)
      requires Valid() && forall a, b :: cmp(a, b) == 0 <==> a == b
      ensures if HasKey(Contents(), key) then st == SUCCESS && res.Some? && Entry(key, res.value) in Contents()
              else st == ERR_NOKEY && res == None
    {
      var found, i := Find(cmp, key);
      if !found {
        return ERR_NOKEY, None;
      }
      LiveFreed(slots[..], i);
      return SUCCESS, Some(slots[i].entry.data);
    }

    /** `lhi_remove_array` */
    method Remove(cmp: (Key, Key) -> int, key: Key) returns (st: Status, res: Option<Data>, ghost pos: nat)
      requires Valid() && forall a, b :: cmp(a, b) == 0 <==> a == b
      modifies this`slotSize, slots
      ensures Valid()
      ensures old(!HasKey(Contents(), key)) ==> st == ERR_NOKEY && res == None && slots[..] == old(slots[..])
      ensures old(HasKey(Contents(), key)) ==>
        && st == SUCCESS && res.Some? && pos < |old(Contents())| && old(Contents())[pos] == Entry(key, res.value)
        && Contents() == Removed(old(Contents()), pos)
    {
      var found, i := Find(cmp, key);
      pos := 0;
      if !found {
        return ERR_NOKEY, None, pos;
      }
      ghost var s := slots[..];
      LiveFreed(s, i);
      pos := |Live(s[..i])|;
      RemovedMap(Live(s), pos);
      st, res := SUCCESS, Some(slots[i].entry.data);
      slots[i] := NotAllocated;
      assert slots[..] == s[i := NotAllocated];
      slotSize := slotSize - 1;
    }

    /** Doubles the number of slots. */
    method Grow()
      requires Valid()
      modifies this`slots
      ensures Valid() && fresh(slots) && slots.Length == 2 * old(slots.Length) && slots[..old(slots.Length)] == old(slots[..])
      ensures Contents() == old(Contents()) && (old(Dense()) ==> Dense())
    {
      var n := slots.Length;
      var bigger := new Slot[n * 2](_ => NotAllocated);
      var i := 0;
      while i < n
        invariant 0 <= i <= n && slots == old(slots) && bigger.Length == 2 * n && bigger[..i] == slots[..i]
        invariant forall j :: n <= j < 2 * n ==> bigger[j] == NotAllocated
      {
        bigger[i] := slots[i];
        i := i + 1;
      }
      ghost var s := slots[..];
      slots := bigger;
      assert slots[..n] == s;
      assert slots[..] == s + slots[n..];
      NoneLive(slots[n..]);
      LiveConcat(s, slots[n..]);
    }

    /** The loop for the first free slot. It always finds one: the exit behind the loop, with
        HI_ERR_INTERNAL, is not reached. */
    method Fill(e: Entry) returns (st: Status, ghost pos: nat)
      requires Valid() && !HasKey(Contents(), e.key) && slotSize < slots.Length
      modifies this`slotSize, slots
      ensures Valid() && st == SUCCESS
      ensures pos <= |old(Contents())| && Contents() == Added(old(Contents()), pos, e) && (old(Dense()) ==> Dense())
    {
      ghost var s := slots[..];
      var i := 0;
      while i < slots.Length
        invariant 0 <= i <= slots.Length && slots[..] == s && slotSize == |Live(s)|
        invariant forall j :: 0 <= j < i ==> s[j].Allocated?
      {
        if slots[i].NotAllocated? {
          LiveFilled(s, i, e);
          pos := |Live(s[..i])|;
          AddedMap(Live(s), pos, e);
          slots[i] := Allocated(e);
          assert slots[..] == s[i := Allocated(e)];
          slotSize := slotSize + 1;
          FirstFree(s, i, e);
          return SUCCESS, pos;
        }
        i := i + 1;
      }
      AllLive(s);
      assert false;
    }

    /** `lhi_insert_array` */
    method Insert(cmp: (Key, Key) -> int, key: Key, data: Data) returns (st: Status, ghost pos: nat)
      requires Valid() && forall a, b :: cmp(a, b) == 0 <==> a == b
      modifies this, slots
      ensures Valid() && (slots == old(slots) || fresh(slots)) && (old(Dense()) ==> Dense())
      ensures old(HasKey(Contents(), key)) ==> st == ERR_DUPKEY && Contents() == old(Contents())
      ensures old(!HasKey(Contents(), key)) ==>
        st == SUCCESS && pos <= |old(Contents())| && Contents() == Added(old(Contents()), pos, Entry(key, data))
    {
      pos := 0;
      var found, _ := Get(cmp, key);
      if found == SUCCESS {
        return ERR_DUPKEY, pos;
      }
      AllLive(slots[..]);
      if slotSize >= slots.Length {
        Grow();
      }
      st, pos := Fill(Entry(key, data));
    }

    /** `lhi_array_bucket_to_array`, for a bucket that may be empty. */
    method ToArray() returns (a: array<Option<Entry>>)
      requires Valid()
      ensures fresh(a) && slotSize <= slots.Length && a[..] == Copied(slots[..], slotSize)
    {
      var len := slotSize;
      AllLive(slots[..]);
      a := new Option<Entry>[len](_ => None);
      var j := 0;
      for i := 0 to len
        invariant j == |Live(slots[..i])| <= i && a[..] == Somes(Live(slots[..i])) + seq(len - j, _ => None)
      {
        LiveSnoc(slots[..i], slots[i]);
        assert slots[..i + 1] == slots[..i] + [slots[i]];
        if slots[i].Allocated? {
          a[j] := Some(slots[i].entry);
          j := j + 1;
        }
      }
    }
  }

  /** In a bucket without holes the first free slot is the one behind the last entry. */
  lemma FirstFree(s: seq<Slot>, i: nat, e: Entry)
    requires i < |s| && s[i].NotAllocated? && forall j :: 0 <= j < i ==> s[j].Allocated?
    ensures Packed(s) ==> Packed(s[i := Allocated(e)])
  {
    if Packed(s) {
      AllLive(s[..i]);
      LiveFilled(s, i, e);
    }
  }

  /** Two entries put into two slots and the first one taken out: the copy has room for one entry,
      and the one that is there is not in it. */
  lemma HoleExample(x: Entry, y: Entry)
    ensures var s := [Allocated(x), Allocated(y)][0 := NotAllocated]; Live(s) == [y] && Copied(s, 1) == [None]
  {
    var s := [NotAllocated, Allocated(y)];
    assert [Allocated(x), Allocated(y)][0 := NotAllocated] == s;
    assert s[..1] == [NotAllocated] && [NotAllocated][..0] == [];
    assert Live([NotAllocated]) == [];
    assert Live(s) == Live(s[..1]) + [y];
  }

  lemma LivePrefix(s: seq<Slot>, i: nat)
    requires i <= |s|
    ensures Live(s) == Live(s[..i]) + Live(s[i..])
  {
    assert s == s[..i] + s[i..];
    LiveConcat(s[..i], s[i..]);
  }

  /** When as many live slots were seen as there are, none is left. */
  lemma Stopped(s: seq<Slot>, i: nat)
    requires i <= |s| && |Live(s[..i])| >= |Live(s)|
    ensures Live(s) == Live(s[..i])
  {
    LivePrefix(s, i);
  }
}
