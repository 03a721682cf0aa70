/** Keys, data and the map that a sequence of entries stands for. Every collision engine keeps
    its bucket as some arrangement of entries; this is what they have in common. */
module Entries {
  import opened Options

  type Key(==, !new)
  type Data(==, !new)

  datatype Entry = Entry(key: Key, data: Data)

  /** The return codes of the table operations. */
  datatype Status = SUCCESS | FAILURE | ERR_NOKEY | ERR_DUPKEY | ERR_NODATA

  predicate HasKey(es: seq<Entry>, key: Key) {
    exists i :: 0 <= i < |es| && es[i].key == key
  }

  predicate Unique(es: seq<Entry>) {
    forall i, j :: 0 <= i < j < |es| ==> es[i].key != es[j].key
  }

  ghost function Keys(es: seq<Entry>): set<Key> {
    set i | 0 <= i < |es| :: es[i].key
  }

  /** The data stored under a key, the first occurrence deciding. */
  function DataOf(es: seq<Entry>, key: Key): Data
    requires HasKey(es, key)
  {
    if es[0].key == key then es[0].data else
      assert HasKey(es[1..], key) by {
        var i :| 0 <= i < |es| && es[i].key == key;
        assert es[1..][i - 1].key == key;
      }
      DataOf(es[1..], key)
  }

  ghost function MapOf(es: seq<Entry>): map<Key, Data> {
    map key | key in Keys(es) :: DataOf(es, key)
  }

  /** Entry `e` put in at position `i`, and the entry at position `i` taken out. */
  function Added(es: seq<Entry>, i: nat, e: Entry): seq<Entry>
    requires i <= |es|
  {
    es[..i] + [e] + es[i..]
  }

  function Removed(es: seq<Entry>, i: nat): seq<Entry>
    requires i < |es|
  {
    es[..i] + es[i + 1..]
  }

  /** A snapshot of entries in an array. */
  ghost function Somes(es: seq<Entry>): (r: seq<Option<Entry>>)
    ensures |r| == |es| && forall i :: 0 <= i < |es| ==> r[i] == Some(es[i])
  {
    seq(|es|, i requires 0 <= i < |es| => Some(es[i]))
  }

  lemma {:induction false} DataAt(es: seq<Entry>, i: nat)
    requires Unique(es) && i < |es|
    ensures DataOf(es, es[i].key) == es[i].data
  {
    if i > 0 {
      DataAt(es[1..], i - 1);
    }
  }

  lemma KeyAt(es: seq<Entry>, key: Key)
    requires Unique(es)
    ensures key in MapOf(es) <==> HasKey(es, key)
    ensures forall i :: 0 <= i < |es| && es[i].key == key ==> key in MapOf(es) && MapOf(es)[key] == es[i].data
  {
    forall i | 0 <= i < |es| && es[i].key == key
      ensures key in MapOf(es) && MapOf(es)[key] == es[i].data
    {
      DataAt(es, i);
    }
  }

  /** Two arrangements of the same entries stand for the same map. */
  lemma SameEntriesSameMap(es: seq<Entry>, fs: seq<Entry>)
    requires Unique(es) && Unique(fs)
    requires forall e :: e in es <==> e in fs
    ensures MapOf(es) == MapOf(fs)
  {
    forall key
      ensures key in MapOf(es) <==> key in MapOf(fs)
      ensures key in MapOf(es) ==> MapOf(es)[key] == MapOf(fs)[key]
    {
      KeyAt(es, key);
      KeyAt(fs, key);
      if HasKey(es, key) {
        var i :| 0 <= i < |es| && es[i].key == key;
        assert es[i] in fs;
      }
      if HasKey(fs, key) {
        var i :| 0 <= i < |fs| && fs[i].key == key;
        assert fs[i] in es;
      }
    }
  }

  lemma AddedMap(es: seq<Entry>, i: nat, e: Entry)
    requires Unique(es) && i <= |es| && !HasKey(es, e.key)
    ensures Unique(Added(es, i, e)) && MapOf(Added(es, i, e)) == MapOf(es)[e.key := e.data]
  {
    var fs := Added(es, i, e);
    assert forall j :: 0 <= j < |fs| ==> fs[j] == if j < i then es[j] else if j == i then e else es[j - 1];
    forall key
      ensures key in MapOf(fs) <==> key in MapOf(es)[e.key := e.data]
      ensures key in MapOf(fs) ==> MapOf(fs)[key] == MapOf(es)[e.key := e.data][key]
    {
      KeyAt(es, key);
      KeyAt(fs, key);
      assert fs[i].key == e.key;
      if HasKey(es, key) {
        var j :| 0 <= j < |es| && es[j].key == key;
        assert fs[if j < i then j else j + 1].key == key;
      }
    }
  }

  lemma RemovedMap(es: seq<Entry>, i: nat)
    requires Unique(es) && i < |es|
    ensures Unique(Removed(es, i)) && MapOf(Removed(es, i)) == MapOf(es) - {es[i].key}
  {
    var fs := Removed(es, i);
    assert forall j :: 0 <= j < |fs| ==> fs[j] == if j < i then es[j] else es[j + 1];
    forall key
      ensures key in MapOf(fs) <==> key in MapOf(es) - {es[i].key}
      ensures key in MapOf(fs) ==> MapOf(fs)[key] == MapOf(es)[key]
    {
      KeyAt(es, key);
      KeyAt(fs, key);
      if HasKey(es, key) && key != es[i].key {
        var j :| 0 <= j < |es| && es[j].key == key;
        assert fs[if j < i then j else j - 1].key == key;
      }
    }
  }

  lemma {:induction false} MapSize(es: seq<Entry>)
    requires Unique(es)
    ensures |MapOf(es)| == |es|
  {
    if es == [] {
      assert MapOf(es) == map[];
    } else {
      var fs := es[1..];
      MapSize(fs);
      AddedMap(fs, 0, es[0]);
      assert Added(fs, 0, es[0]) == es;
      KeyAt(fs, es[0].key);
      assert es[0].key !in MapOf(fs);
    }
  }
}
