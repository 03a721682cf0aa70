/** The service queue that queries wait in: a linked list with a head, a tail and a count.
    `tslist.c`; the mutex makes each operation atomic, and a thread that finds the queue empty waits. */
module ServiceQueue {
  import opened Chains

  class Element<T> {
    const item: T
    var next: Element?<T>

    constructor (item: T)
      ensures this.item == item && next == null
    {
      this.item, this.next := item, null;
    }
  }

  ghost function Items<T>(s: seq<Element<T>>): (r: seq<T>)
    ensures |r| == |s| && forall i :: 0 <= i < |s| ==> r[i] == s[i].item
  {
    seq(|s|, i requires 0 <= i < |s| => s[i].item)
  }

  class Queue<T> {
    var head: Element?<T>
    var tail: Element?<T>
    var count: nat
    ghost var spine: seq<Element<T>>

    ghost predicate Valid()
      reads this, spine`next
    {
      && count == |spine| && Distinct(spine)
      && head == First(spine, null)
      && (|spine| > 0 ==> tail == spine[|spine| - 1])
      && forall i {:trigger After(spine, i, null)} :: 0 <= i < |spine| ==> spine[i].next == After(spine, i, null)
    }

    ghost function Contents(): seq<T>
      reads this`spine
    {
      Items(spine)
    }

    constructor ()
      ensures Valid() && Contents() == [] && spine == []
    {
      head, tail, count, spine := null, null, 0, [];
    }

    /** `tsl_append` */
    method Append(item: T)
      requires Valid()
      modifies this, spine`next
      ensures Valid() && Contents() == old(Contents()) + [item]
      ensures |spine| == |old(spine)| + 1 && spine[..|old(spine)|] == old(spine) && fresh(spine[|old(spine)|])
    {
      var e := new Element(item);
      ghost var s := spine;
      if count == 0 {
        head := e;
      } else {
        tail.next := e;
      }
      count := count + 1;
      tail := e;
      spine := s + [e];
      forall i | 0 <= i < |spine|
        ensures spine[i].next == After(spine, i, null)
      {
        if i < |s| {
          assert old(s[i].next) == After(s, i, null);
          assert i < |s| - 1 ==> s[i] != s[|s| - 1];
        }
      }
    }

    /** `tsl_prepend` */
    method Prepend(item: T)
      requires Valid()
      modifies this
      ensures Valid() && Contents() == [item] + old(Contents())
      ensures |spine| == |old(spine)| + 1 && spine[1..] == old(spine) && fresh(spine[0])
    {
      var e := new Element(item);
      ghost var s := spine;
      e.next := head;
      head := e;
      if count == 0 {
        tail := e;
      }
      count := count + 1;
      spine := [e] + s;
      forall i | 0 <= i < |spine|
        ensures spine[i].next == After(spine, i, null)
      {
        if i > 0 {
          assert s[i - 1].next == After(s, i - 1, null);
        }
      }
    }

    /** `tsl_remove`, for a thread that need not wait. */
    method Remove() returns (item: T)
      requires Valid() && count > 0
      modifies this
      ensures Valid() && old(Contents()) == [item] + Contents() && spine == old(spine)[1..]
    {
      ghost var s := spine;
      var e := head;
      assert e.next == After(s, 0, null);
      head := e.next;
      count := count - 1;
      if count == 0 {
        tail := null;
      }
      spine := s[1..];
      item := e.item;
      forall i | 0 <= i < |spine|
        ensures spine[i].next == After(spine, i, null)
      {
        assert s[i + 1].next == After(s, i + 1, null);
      }
    }
  }

  // ----- first in, first out --------------------------------------------------------------------

  datatype Op<T> = Put(item: T) | Take

  /** What a run of appends and removes takes out; a remove on an empty queue waits, so it is no step. */
  function Taken<T>(ops: seq<Op<T>>): nat {
    if ops == [] then 0 else Taken(ops[..|ops| - 1]) + if ops[|ops| - 1].Take? then 1 else 0
  }

  function Given<T>(ops: seq<Op<T>>): seq<T> {
    if ops == [] then []
    else Given(ops[..|ops| - 1]) + if ops[|ops| - 1].Put? then [ops[|ops| - 1].item] else []
  }

  /** One step: what it takes out, followed by what is then in the queue. */
  method Do<T>(q: Queue<T>, op: Op<T>) returns (out: seq<T>)
    requires q.Valid() && (op.Take? ==> |q.Contents()| > 0)
    modifies q, q.spine`next
    ensures q.Valid() && (op.Take? ==> q.spine == old(q.spine)[1..])
    ensures op.Put? ==> |q.spine| == |old(q.spine)| + 1 && q.spine[..|old(q.spine)|] == old(q.spine) && fresh(q.spine[|old(q.spine)|])
    ensures out + q.Contents() == old(q.Contents()) + if op.Put? then [op.item] else []
    ensures |out| == if op.Take? then 1 else 0
  {
    out := [];
    match op
    case Put(item) => q.Append(item);
    case Take =>
      var item := q.Remove();
      out := [item];
  }

  /** What one step does to the books. */
  lemma StepKeeps<T>(ops: seq<Op<T>>, i: nat, out: seq<T>, o: seq<T>, was: seq<T>, now: seq<T>)
    requires i < |ops| && out + was == Given(ops[..i]) && |out| == Taken(ops[..i])
    requires o + now == was + (if ops[i].Put? then [ops[i].item] else []) && |o| == if ops[i].Take? then 1 else 0
    ensures (out + o) + now == Given(ops[..i + 1]) && |out + o| == Taken(ops[..i + 1])
  {
    assert ops[..i + 1][..i] == ops[..i];
    assert (out + o) + now == out + (o + now);
  }

  /** Items come out in the order they went in, each once: what is out, followed by what is still
      in, is what went in. */
  method Fifo<T>(q: Queue<T>, ops: seq<Op<T>>) returns (out: seq<T>)
    requires q.Valid() && q.spine == [] && forall i :: 0 <= i < |ops| && ops[i].Take? ==> Taken(ops[..i]) < |Given(ops[..i])|
    modifies q
    ensures q.Valid() && out + q.Contents() == Given(ops) && |out| == Taken(ops)
  {
    out := [];
    var i := 0;
    while i < |ops|
      invariant 0 <= i <= |ops| && q.Valid() && fresh(q.spine)
      invariant out + q.Contents() == Given(ops[..i]) && |out| == Taken(ops[..i])
    {
      ghost var was := q.Contents();
      var o := Do(q, ops[i]);
      StepKeeps(ops, i, out, o, was, q.Contents());
      assert forall j :: 0 <= j < |q.spine| ==> fresh(q.spine[j]);
      out := out + o;
      i := i + 1;
    }
    assert ops[..i] == ops;
  }
}
