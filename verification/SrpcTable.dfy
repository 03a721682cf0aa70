/** The connection table: bucket lists of records, the scan that threads records onto the timer's
    four lists, and the timer's pass over them. */
module SrpcTable {
  import opened SrpcRecord
  import opened SrpcConnection
  import opened Chains
  import opened Options

  const CTABLE_SIZE := 31

  /** The bucket list that starts at `head` is `s`. */
  ghost predicate Chain(head: CRecord?, s: seq<CRecord>)
    reads s`next
  {
    && head == First(s, null)
    && forall i {:trigger After(s, i, null)} :: 0 <= i < |s| ==> s[i].next == After(s, i, null)
  }

  /** The list threaded through `link` that starts at `head` is `s`. */
  ghost predicate Linked(head: CRecord?, s: seq<CRecord>)
    reads s`link
  {
    && head == First(s, null)
    && forall i {:trigger After(s, i, null)} :: 0 <= i < |s| ==> s[i].link == After(s, i, null)
  }

  lemma Elsewhere(p: CRecord, s: seq<CRecord>)
    requires p !in s
    ensures forall i :: 0 <= i < |s| ==> s[i] != p
  {}

  // ----- the timer's lists ----------------------------------------------------------------------

  /** What the scan decides for each record. */
  type Verdicts = map<CRecord, Action>

  /** The records of `s` for which the scan decides on `a`, the last one first. */
  ghost function Picked(s: seq<CRecord>, v: Verdicts, a: Action): (p: seq<CRecord>)
    ensures forall r :: r in p ==> r in s && r in v && v[r] == a
    ensures forall r :: r in s && r in v && v[r] == a ==> r in p
  {
    if s == [] then []
    else
      var r := s[|s| - 1];
      var rest := Picked(s[..|s| - 1], v, a);
      if r in v && v[r] == a then [r] + rest else rest
  }

  lemma PickedSnoc(s: seq<CRecord>, r: CRecord, v: Verdicts, a: Action)
    ensures Picked(s + [r], v, a) == if r in v && v[r] == a then [r] + Picked(s, v, a) else Picked(s, v, a)
  {
    assert (s + [r])[..|s|] == s && (s + [r])[|s|] == r;
  }

  lemma {:induction false} PickedDistinct(s: seq<CRecord>, v: Verdicts, a: Action)
    requires Distinct(s)
    ensures Distinct(Picked(s, v, a))
  {
    if s != [] {
      PickedDistinct(s[..|s| - 1], v, a);
    }
  }

  /** The four list heads of a scan, and the contents of the lists. */
  datatype Lists = Lists(retry: CRecord?, timed: CRecord?, ping: CRecord?, purge: CRecord?)

  datatype Picks = Picks(retry: seq<CRecord>, timed: seq<CRecord>, ping: seq<CRecord>, purge: seq<CRecord>)

  /** Each record of `s` is on the one list its verdict names, or on none. */
  ghost function AllPicked(s: seq<CRecord>, v: Verdicts): Picks {
    Picks(Picked(s, v, RETRY), Picked(s, v, TIMED), Picked(s, v, PINGED), Picked(s, v, PURGE))
  }

  ghost predicate Threaded(l: Lists, q: Picks)
    reads q.retry`link, q.timed`link, q.ping`link, q.purge`link
  {
    Linked(l.retry, q.retry) && Linked(l.timed, q.timed) && Linked(l.ping, q.ping) && Linked(l.purge, q.purge)
  }

  ghost predicate OnNone(p: CRecord, q: Picks) {
    p !in q.retry && p !in q.timed && p !in q.ping && p !in q.purge
  }

  ghost function Onto(p: CRecord, yes: bool, s: seq<CRecord>): seq<CRecord> {
    if yes then [p] + s else s
  }

  ghost function Put(q: Picks, p: CRecord, a: Action): Picks {
    Picks(Onto(p, a == RETRY, q.retry), Onto(p, a == TIMED, q.timed), Onto(p, a == PINGED, q.ping), Onto(p, a == PURGE, q.purge))
  }

  lemma PutPicked(s: seq<CRecord>, p: CRecord, v: Verdicts)
    requires p in v
    ensures AllPicked(s + [p], v) == Put(AllPicked(s, v), p, v[p])
    ensures p !in s ==> OnNone(p, AllPicked(s, v))
  {
    PickedSnoc(s, p, v, RETRY);
    PickedSnoc(s, p, v, TIMED);
    PickedSnoc(s, p, v, PINGED);
    PickedSnoc(s, p, v, PURGE);
  }

  method Push(p: CRecord, head: CRecord?, ghost s: seq<CRecord>)
    requires p !in s && Linked(head, s)
    modifies p`link
    ensures Linked(p, [p] + s)
  {
    p.link := head;
    Elsewhere(p, s);
    ghost var t := [p] + s;
    forall i | 0 <= i < |t|
      ensures t[i].link == After(t, i, null)
    {
      if i > 0 {
        assert s[i - 1].link == After(s, i - 1, null);
      }
    }
    assert Linked(p, t);
  }

  method Thread(p: CRecord, a: Action, l: Lists, ghost q: Picks) returns (l': Lists)
    requires OnNone(p, q) && Threaded(l, q)
    modifies p`link
    ensures Threaded(l', Put(q, p, a))
  {
    Elsewhere(p, q.retry);
    Elsewhere(p, q.timed);
    Elsewhere(p, q.ping);
    Elsewhere(p, q.purge);
    match a
    case NOTHING => l' := l;
    case RETRY => Push(p, l.retry, q.retry); l' := l.(retry := p);
    case TIMED => Push(p, l.timed, q.timed); l' := l.(timed := p);
    case PINGED => Push(p, l.ping, q.ping); l' := l.(ping := p);
    case PURGE => Push(p, l.purge, q.purge); l' := l.(purge := p);
    assert a != RETRY ==> Linked(l.retry, q.retry);
    assert a != TIMED ==> Linked(l.timed, q.timed);
    assert a != PINGED ==> Linked(l.ping, q.ping);
    assert a != PURGE ==> Linked(l.purge, q.purge);
  }

  // ----- the scan of one bucket -----------------------------------------------------------------

  /** What the records were before a scan, and what they are after it. */
  type Views = map<CRecord, Rec>

  /** `sc` is `Scan`; stated so that proofs about lists need not look into it. */
  ghost predicate IsScan(sc: Rec -> (Rec, Action)) {
    forall r {:trigger Scan(r)} :: sc(r) == Scan(r)
  }

  ghost predicate Judged(sc: Rec -> (Rec, Action), was: Views, after: Views, v: Verdicts, r: CRecord) {
    r in was && r in after && r in v && sc(was[r]) == (after[r], v[r])
  }

  method CountDown(p: CRecord, ghost sc: Rec -> (Rec, Action), ghost was: Views, ghost after: Views, ghost v: Verdicts) returns (a: Action)
    requires IsScan(sc) && Judged(sc, was, after, v, p) && p.View() == was[p]
    modifies p`nattempts, p`ticks, p`ticksLeft, p`pingsTilPurge, p`ticksTilPing
    ensures p.View() == after[p] && a == v[p]
  {
    a := p.Count();
  }

  /** Counts one record down and threads it. */
  method ScanOne(p: CRecord, l: Lists, ghost q: Picks, ghost sc: Rec -> (Rec, Action), ghost was: Views, ghost after: Views, ghost v: Verdicts)
    returns (l': Lists, ghost q': Picks)
    requires IsScan(sc) && Judged(sc, was, after, v, p) && p.View() == was[p]
    requires OnNone(p, q) && Threaded(l, q)
    modifies p`nattempts, p`ticks, p`ticksLeft, p`pingsTilPurge, p`ticksTilPing, p`link
    ensures p.View() == after[p]
    ensures q' == Put(q, p, v[p]) && Threaded(l', q')
  {
    var a := CountDown(p, sc, was, after, v);
    l' := Thread(p, a, l, q);
    q' := Put(q, p, a);
  }

  /** The first `k` records of a bucket have been scanned, the others not yet. */
  ghost predicate Halfway(s: seq<CRecord>, k: nat, was: Views, after: Views)
    reads s
  {
    forall i :: 0 <= i < |s| ==> s[i] in was && s[i] in after && s[i].View() == if i < k then after[s[i]] else was[s[i]]
  }

  method ScanNext(p: CRecord, l: Lists, ghost q: Picks, ghost head: CRecord?, ghost s: seq<CRecord>, ghost k: nat,
                  ghost sc: Rec -> (Rec, Action), ghost was: Views, ghost after: Views, ghost v: Verdicts)
    returns (l': Lists, ghost q': Picks)
    requires k < |s| && p == s[k] && Chain(head, s) && Distinct(s) && Halfway(s, k, was, after)
    requires IsScan(sc) && Judged(sc, was, after, v, p)
    requires OnNone(p, q) && Threaded(l, q)
    modifies p`nattempts, p`ticks, p`ticksLeft, p`pingsTilPurge, p`ticksTilPing, p`link
    ensures Halfway(s, k + 1, was, after) && Chain(head, s) && p.next == After(s, k, null)
    ensures q' == Put(q, p, v[p]) && Threaded(l', q')
  {
    l', q' := ScanOne(p, l, q, sc, was, after, v);
    forall i | 0 <= i < |s|
      ensures s[i].View() == if i < k + 1 then after[s[i]] else was[s[i]]
    {
      if i != k {
        assert s[i] != p;
      }
    }
  }

  ghost predicate PickStep(qs: seq<Picks>, s: seq<CRecord>, k: nat, v: Verdicts)
    requires k < |s| && k + 1 < |qs|
  {
    s[k] in v && OnNone(s[k], qs[k]) && qs[k + 1] == Put(qs[k], s[k], v[s[k]])
  }

  /** `qs` are the lists before each record of a bucket and after the last. */
  ghost predicate BucketSteps(qs: seq<Picks>, s: seq<CRecord>, v: Verdicts) {
    |qs| == |s| + 1 && forall k {:trigger PickStep(qs, s, k, v)} :: 0 <= k < |s| ==> PickStep(qs, s, k, v)
  }

  ghost function Steps(done: seq<CRecord>, s: seq<CRecord>, v: Verdicts): seq<Picks> {
    seq(|s| + 1, k requires 0 <= k <= |s| => AllPicked(done + s[..k], v))
  }

  lemma StepOk(done: seq<CRecord>, s: seq<CRecord>, v: Verdicts, k: nat)
    requires Distinct(s) && k < |s| && s[k] !in done && s[k] in v
    ensures PickStep(Steps(done, s, v), s, k, v)
  {
    var d := done + s[..k];
    assert s[k] !in s[..k];
    PutPicked(d, s[k], v);
    assert d + [s[k]] == done + s[..k + 1];
  }

  lemma StepsOk(done: seq<CRecord>, s: seq<CRecord>, v: Verdicts)
    requires Distinct(s) && forall i :: 0 <= i < |s| ==> s[i] !in done && s[i] in v
    ensures var qs := Steps(done, s, v);
      BucketSteps(qs, s, v) && qs[0] == AllPicked(done, v) && qs[|s|] == AllPicked(done + s, v)
  {
    forall k | 0 <= k < |s|
      ensures PickStep(Steps(done, s, v), s, k, v)
    {
      StepOk(done, s, v, k);
    }
    assert done + s[..0] == done && done + s[..|s|] == done + s;
  }

  method ScanBucket(head: CRecord?, l: Lists, ghost s: seq<CRecord>, ghost qs: seq<Picks>,
                    ghost sc: Rec -> (Rec, Action), ghost was: Views, ghost after: Views, ghost v: Verdicts)
    returns (l': Lists)
    requires Chain(head, s) && Distinct(s) && BucketSteps(qs, s, v) && Threaded(l, qs[0]) && Halfway(s, 0, was, after)
    requires IsScan(sc) && forall k :: 0 <= k < |s| ==> Judged(sc, was, after, v, s[k])
    modifies s`nattempts, s`ticks, s`ticksLeft, s`pingsTilPurge, s`ticksTilPing, s`link
    ensures Halfway(s, |s|, was, after) && Threaded(l', qs[|s|])
  {
    var p := head;
    ghost var k := 0;
    ghost var q := qs[0];
    l' := l;
    while p != null
      invariant 0 <= k <= |s| && p == (if k < |s| then s[k] else null)
      invariant Halfway(s, k, was, after) && Chain(head, s)
      invariant q == qs[k] && Threaded(l', q)
      decreases |s| - k
    {
      assert PickStep(qs, s, k, v);
      l', q := ScanNext(p, l', q, head, s, k, sc, was, after, v);
      p := p.next;
      k := k + 1;
    }
  }

  // ----- buckets --------------------------------------------------------------------------------

  /** All records, bucket after bucket. */
  ghost function Flat(cs: seq<seq<CRecord>>): seq<CRecord> {
    if cs == [] then [] else Flat(cs[..|cs| - 1]) + cs[|cs| - 1]
  }

  lemma FlatSnoc(cs: seq<seq<CRecord>>, i: nat)
    requires i < |cs|
    ensures Flat(cs[..i + 1]) == Flat(cs[..i]) + cs[i]
  {
    assert cs[..i + 1][..i] == cs[..i];
  }

  ghost predicate InBucket(s: seq<CRecord>, b: nat) {
    Distinct(s) && forall j :: 0 <= j < |s| ==> s[j].bucket == b
  }

  ghost predicate InBuckets(cs: seq<seq<CRecord>>) {
    forall b :: 0 <= b < |cs| ==> InBucket(cs[b], b)
  }

  lemma {:induction false} FlatIn(cs: seq<seq<CRecord>>, n: nat, r: CRecord)
    requires InBuckets(cs) && n <= |cs|
    ensures r in Flat(cs[..n]) <==> r.bucket < n && r in cs[r.bucket]
  {
    if n > 0 {
      FlatSnoc(cs, n - 1);
      FlatIn(cs, n - 1, r);
      if r in cs[n - 1] {
        var j :| 0 <= j < |cs[n - 1]| && cs[n - 1][j] == r;
        assert InBucket(cs[n - 1], n - 1);
      }
    }
  }

  lemma {:induction false} FlatDistinct(cs: seq<seq<CRecord>>, n: nat)
    requires InBuckets(cs) && n <= |cs|
    ensures Distinct(Flat(cs[..n]))
  {
    if n > 0 {
      FlatSnoc(cs, n - 1);
      FlatDistinct(cs, n - 1);
      var s, t := Flat(cs[..n - 1]), cs[n - 1];
      assert InBucket(t, n - 1);
      forall i, j | 0 <= i < |s| && 0 <= j < |t|
        ensures s[i] != t[j]
      {
        FlatIn(cs, n - 1, s[i]);
      }
    }
  }

  /** The lists before bucket `b`. */
  ghost function ListsAt(cs: seq<seq<CRecord>>, v: Verdicts, b: nat): Picks
    requires b <= |cs|
  {
    AllPicked(Flat(cs[..b]), v)
  }

  lemma BucketListed(cs: seq<seq<CRecord>>, v: Verdicts, b: nat) returns (qs: seq<Picks>)
    requires InBuckets(cs) && b < |cs| && forall j :: 0 <= j < |cs[b]| ==> cs[b][j] in v
    ensures BucketSteps(qs, cs[b], v) && qs[0] == ListsAt(cs, v, b) && qs[|cs[b]|] == ListsAt(cs, v, b + 1)
  {
    var s, done := cs[b], Flat(cs[..b]);
    assert InBucket(s, b);
    forall k | 0 <= k < |s|
      ensures s[k] !in done
    {
      FlatIn(cs, b, s[k]);
    }
    StepsOk(done, s, v);
    FlatSnoc(cs, b);
    qs := Steps(done, s, v);
  }

  /** `s` without the records of `gone`, in the same order. */
  ghost function Kept(s: seq<CRecord>, gone: set<CRecord>): (t: seq<CRecord>)
    ensures forall r :: r in t ==> r in s && r !in gone
    ensures forall r :: r in s && r !in gone ==> r in t
  {
    if s == [] then []
    else
      var t := Kept(s[..|s| - 1], gone);
      if s[|s| - 1] in gone then t else t + [s[|s| - 1]]
  }

  lemma {:induction false} KeptNone(s: seq<CRecord>, gone: set<CRecord>)
    requires forall i :: 0 <= i < |s| ==> s[i] !in gone
    ensures Kept(s, gone) == s
  {
    if s != [] {
      var t, r := s[..|s| - 1], s[|s| - 1];
      assert forall i :: 0 <= i < |t| ==> t[i] == s[i];
      KeptNone(t, gone);
      assert s == t + [r];
    }
  }

  lemma {:induction false} KeptDistinct(s: seq<CRecord>, gone: set<CRecord>)
    requires Distinct(s)
    ensures Distinct(Kept(s, gone))
  {
    if s != [] { KeptDistinct(s[..|s| - 1], gone); }
  }

  lemma CutEnd(s: seq<CRecord>, k: nat)
    requires k < |s| - 1
    ensures var t := s[..|s| - 1]; t[..k] + t[k + 1..] + [s[|s| - 1]] == s[..k] + s[k + 1..]
  {}

  lemma {:induction false} KeptOne(s: seq<CRecord>, k: nat)
    requires Distinct(s) && k < |s|
    ensures Kept(s, {s[k]}) == s[..k] + s[k + 1..]
  {
    var t := s[..|s| - 1];
    if k == |s| - 1 {
      KeptNone(t, {s[k]});
    } else {
      KeptOne(t, k);
      CutEnd(s, k);
    }
  }

  lemma {:induction false} KeptTwice(s: seq<CRecord>, g: set<CRecord>, h: set<CRecord>)
    ensures Kept(Kept(s, g), h) == Kept(s, g + h)
  {
    if s != [] {
      var t, r := s[..|s| - 1], s[|s| - 1];
      KeptTwice(t, g, h);
      if r !in g {
        var u := Kept(t, g) + [r];
        assert u[..|u| - 1] == Kept(t, g);
      }
    }
  }

  lemma KeptInBucket(s: seq<CRecord>, b: nat, gone: set<CRecord>)
    requires InBucket(s, b)
    ensures InBucket(Kept(s, gone), b)
  {
    var t := Kept(s, gone);
    forall j | 0 <= j < |t|
      ensures t[j].bucket == b
    {
      assert t[j] in t;
      var k :| 0 <= k < |s| && s[k] == t[j];
    }
    KeptDistinct(s, gone);
  }

  method Hook(cr: CRecord, head: CRecord?, ghost s: seq<CRecord>)
    requires cr !in s && Chain(head, s)
    modifies cr`next
    ensures Chain(cr, [cr] + s)
  {
    cr.next := head;
    Elsewhere(cr, s);
    ghost var t := [cr] + s;
    forall i | 0 <= i < |t|
      ensures t[i].next == After(t, i, null)
    {
      if i > 0 {
        assert s[i - 1].next == After(s, i - 1, null);
      }
    }
    assert Chain(cr, t);
  }

  /** Takes the record at position `k` out of its bucket list. */
  method Unhook(head: CRecord?, pr: CRecord?, cu: CRecord, ghost s: seq<CRecord>, ghost k: nat) returns (head': CRecord?)
    requires k < |s| && cu == s[k] && pr == (if k > 0 then s[k - 1] else null) && Distinct(s) && Chain(head, s)
    modifies (if pr == null then {} else {pr})`next
    ensures Chain(head', s[..k] + s[k + 1..])
  {
    ghost var t := s[..k] + s[k + 1..];
    assert cu.next == After(s, k, null);
    head' := head;
    if pr == null {
      head' := cu.next;
    } else {
      pr.next := cu.next;
    }
    forall i | 0 <= i < |t|
      ensures t[i].next == After(t, i, null)
    {
      if i < k {
        assert t[i] == s[i] && old(s[i].next) == After(s, i, null);
      } else {
        assert t[i] == s[i + 1] && old(s[i + 1].next) == After(s, i + 1, null);
      }
    }
    assert Chain(head', t);
  }

  /** Looks for the record in the bucket list and takes it out. */
  method Drop(head: CRecord?, cr: CRecord, ghost s: seq<CRecord>) returns (head': CRecord?)
    requires Distinct(s) && Chain(head, s)
    modifies s`next
    ensures Chain(head', Kept(s, {cr}))
  {
    var pr, cu := null, head;
    ghost var k := 0;
    head' := head;
    while cu != null
      invariant 0 <= k <= |s| && cu == (if k < |s| then s[k] else null) && pr == (if k > 0 then s[k - 1] else null)
      invariant forall i :: 0 <= i < k ==> s[i] != cr
      invariant head' == head && Chain(head, s)
      decreases |s| - k
    {
      if cr == cu {
        head' := Unhook(head, pr, cu, s, k);
        KeptOne(s, k);
        return;
      }
      assert s[k].next == After(s, k, null);
      pr := cu;
      cu := pr.next;
      k := k + 1;
    }
    KeptNone(s, {cr});
  }

  /** The timer's second loop. */
  method TimeOutAll(head: CRecord?, ghost s: seq<CRecord>, ghost after: Views)
    requires Linked(head, s) && Distinct(s) && forall k :: 0 <= k < |s| ==> s[k] in after && s[k].View() == after[s[k]]
    modifies s`state, s`ticksTilPing, s`pingsTilPurge
    ensures forall k :: 0 <= k < |s| ==> s[k].View() == SetState(after[s[k]], TIMEDOUT)
  {
    var timed := head;
    ghost var k := 0;
    while timed != null
      invariant 0 <= k <= |s| && timed == (if k < |s| then s[k] else null) && Linked(head, s)
      invariant forall i :: 0 <= i < |s| ==> s[i].View() == if i < k then SetState(after[s[i]], TIMEDOUT) else after[s[i]]
      decreases |s| - k
    {
      var cr := timed.link;
      assert s[k].link == After(s, k, null);
      assert forall i :: 0 <= i < |s| && i != k ==> s[i] != s[k];
      timed.SetState(TIMEDOUT);
      timed := cr;
      k := k + 1;
    }
  }

  /** Packets with the record whose endpoint they go to. */
  type Sends = seq<(CRecord, Msg)>

  ghost function Pings(s: seq<CRecord>, after: Views): Sends {
    if s == [] then []
    else
      var r := s[|s| - 1];
      Pings(s[..|s| - 1], after) + if r in after then [(r, Control(PING, after[r].seqno, 1, 1))] else []
  }

  ghost function Repeats(s: seq<CRecord>, after: Views): Sends {
    if s == [] then []
    else
      var r := s[|s| - 1];
      Repeats(s[..|s| - 1], after) + if r in after && after[r].pl.Some? then [(r, after[r].pl.value)] else []
  }

  /** The third loop. */
  method PingAll(head: CRecord?, ghost s: seq<CRecord>, ghost after: Views) returns (sends: Sends)
    requires Linked(head, s) && forall k :: 0 <= k < |s| ==> s[k] in after && s[k].View() == after[s[k]]
    ensures sends == Pings(s, after)
  {
    sends := [];
    var ping := head;
    ghost var k := 0;
    while ping != null
      invariant 0 <= k <= |s| && ping == (if k < |s| then s[k] else null)
      invariant sends == Pings(s[..k], after)
      decreases |s| - k
    {
      assert s[k].link == After(s, k, null);
      assert s[..k + 1][..k] == s[..k];
      var cr := ping.link;
      sends := sends + [(ping, Control(PING, ping.seqno, 1, 1))];
      ping := cr;
      k := k + 1;
    }
    assert s[..k] == s;
  }

  /** The last loop; its test of the state never fails. */
  method RetryAll(head: CRecord?, ghost s: seq<CRecord>, ghost after: Views) returns (sends: Sends)
    requires Linked(head, s) && forall k :: 0 <= k < |s| ==> s[k] in after && s[k].View() == after[s[k]] && Sending(s[k].state)
    ensures sends == Repeats(s, after)
  {
    sends := [];
    var retry := head;
    ghost var k := 0;
    while retry != null
      invariant 0 <= k <= |s| && retry == (if k < |s| then s[k] else null)
      invariant sends == Repeats(s[..k], after)
      decreases |s| - k
    {
      assert s[k].link == After(s, k, null);
      assert s[..k + 1][..k] == s[..k];
      var cr := retry.link;
      if Sending(retry.state) && retry.pl.Some? {
        sends := sends + [(retry, retry.pl.value)];
      }
      retry := cr;
      k := k + 1;
    }
    assert s[..k] == s;
  }

  /** The packets that go to one record's endpoint. */
  ghost function SentTo(sends: Sends, r: CRecord): seq<Msg> {
    if sends == [] then []
    else SentTo(sends[..|sends| - 1], r) + if sends[|sends| - 1].0 == r then [sends[|sends| - 1].1] else []
  }

  lemma {:induction false} SentToConcat(a: Sends, b: Sends, r: CRecord)
    ensures SentTo(a + b, r) == SentTo(a, r) + SentTo(b, r)
  {
    if b == [] {
      assert a + b == a;
    } else {
      var c := b[..|b| - 1];
      SentToConcat(a, c, r);
      assert (a + b)[..|a + b| - 1] == a + c;
    }
  }

  lemma SentToSnoc(a: Sends, x: (CRecord, Msg), r: CRecord)
    ensures SentTo(a + [x], r) == SentTo(a, r) + if x.0 == r then [x.1] else []
  {
    assert (a + [x])[..|a|] == a;
  }

  lemma LastOf(s: seq<CRecord>, t: seq<CRecord>, p: CRecord, r: CRecord)
    requires s == t + [p] && Distinct(s)
    ensures Distinct(t) && p !in t && (r in s <==> r in t || r == p)
  {
    assert s[|t|] == p && forall i :: 0 <= i < |t| ==> s[i] == t[i];
  }

  lemma {:induction false} SentPings(s: seq<CRecord>, after: Views, r: CRecord)
    requires Distinct(s) && forall k :: 0 <= k < |s| ==> s[k] in after
    ensures r in s ==> r in after
    ensures SentTo(Pings(s, after), r) == if r in s then [Control(PING, after[r].seqno, 1, 1)] else []
  {
    if s != [] {
      var t, p := s[..|s| - 1], s[|s| - 1];
      assert s == t + [p];
      LastOf(s, t, p, r);
      SentPings(t, after, r);
      SentToSnoc(Pings(t, after), (p, Control(PING, after[p].seqno, 1, 1)), r);
    }
  }

  lemma {:induction false} SentRepeats(s: seq<CRecord>, after: Views, r: CRecord)
    requires Distinct(s) && forall k :: 0 <= k < |s| ==> s[k] in after
    ensures r in s ==> r in after
    ensures SentTo(Repeats(s, after), r) == if r in s then Payload(after[r]) else []
  {
    if s != [] {
      var t, p := s[..|s| - 1], s[|s| - 1];
      assert s == t + [p];
      LastOf(s, t, p, r);
      SentRepeats(t, after, r);
      if after[p].pl.Some? {
        SentToSnoc(Repeats(t, after), (p, after[p].pl.value), r);
        assert Repeats(s, after) == Repeats(t, after) + [(p, after[p].pl.value)];
      } else {
        assert Repeats(s, after) == Repeats(t, after);
      }
    }
  }

  /** The list holds exactly the records of `all` with this verdict, each once. */
  ghost predicate Holds(s: seq<CRecord>, all: set<CRecord>, v: Verdicts, a: Action) {
    && Distinct(s)
    && (forall k :: 0 <= k < |s| ==> s[k] in all && s[k] in v && v[s[k]] == a)
    && (forall r :: r in all && r in v && v[r] == a ==> r in s)
  }

  lemma PickedHolds(s: seq<CRecord>, all: set<CRecord>, v: Verdicts, a: Action)
    requires Distinct(s) && forall r :: r in s <==> r in all
    ensures Holds(Picked(s, v, a), all, v, a)
  {
    PickedDistinct(s, v, a);
    var p := Picked(s, v, a);
    assert forall k :: 0 <= k < |p| ==> p[k] in p;
  }

  ghost predicate Drawn(q: Picks, all: set<CRecord>, v: Verdicts) {
    Holds(q.purge, all, v, PURGE) && Holds(q.timed, all, v, TIMED) && Holds(q.ping, all, v, PINGED) && Holds(q.retry, all, v, RETRY)
  }

  ghost function Purged(all: set<CRecord>, v: Verdicts): set<CRecord> {
    set r | r in all && r in v && v[r] == PURGE
  }

  ghost predicate AllViewed(all: set<CRecord>, after: Views, v: Verdicts)
    reads all`seqno, all`state, all`pl, all`resp, all`lastFrag, all`nattempts, all`ticks,
          all`ticksLeft, all`pingsTilPurge, all`ticksTilPing
  {
    forall r :: r in all ==> r in after && r in v && r.View() == after[r] && (v[r] == RETRY ==> Sending(after[r].state))
  }

  ghost predicate AllMoved(all: set<CRecord>, after: Views, v: Verdicts)
    reads all`seqno, all`state, all`pl, all`resp, all`lastFrag, all`nattempts, all`ticks,
          all`ticksLeft, all`pingsTilPurge, all`ticksTilPing
  {
    forall r :: r in all ==> r in after && r in v && r.View() == if v[r] == TIMED then SetState(after[r], TIMEDOUT) else after[r]
  }

  /** The loops over the other three lists. */
  method ServeLists(l: Lists, ghost q: Picks, ghost all: set<CRecord>, ghost after: Views, ghost v: Verdicts) returns (sends: Sends)
    requires Drawn(q, all, v) && Threaded(l, q) && AllViewed(all, after, v)
    modifies all`state, all`ticksTilPing, all`pingsTilPurge
    ensures AllMoved(all, after, v)
    ensures sends == Pings(q.ping, after) + Repeats(q.retry, after)
  {
    TimeOutAll(l.timed, q.timed, after);
    forall r | r in all
      ensures r.View() == if v[r] == TIMED then SetState(after[r], TIMEDOUT) else after[r]
    {
      if v[r] == TIMED {
        var k :| 0 <= k < |q.timed| && q.timed[k] == r;
      }
    }
    var pings := PingAll(l.ping, q.ping, after);
    var repeats := RetryAll(l.retry, q.retry, after);
    sends := pings + repeats;
  }

  // ----- the table ------------------------------------------------------------------------------

  class CTable {
    const heads: array<CRecord?>
    ghost var chains: seq<seq<CRecord>>
    ghost var records: set<CRecord>      // every record in the table

    ghost predicate Valid()
      reads this, heads, records`next
    {
      && heads.Length == CTABLE_SIZE == |chains| && InBuckets(chains)
      && (forall b, j {:trigger chains[b][j]} :: 0 <= b < |chains| && 0 <= j < |chains[b]| ==> chains[b][j] in records)
      && (forall r :: r in records ==> r.bucket < CTABLE_SIZE && r in chains[r.bucket])
      && (forall b :: 0 <= b < CTABLE_SIZE ==> Chain(heads[b], chains[b]))
    }

    constructor ()
      ensures Valid() && records == {} && fresh(heads)
    {
      heads := new CRecord?[CTABLE_SIZE](_ => null);
      chains := seq(CTABLE_SIZE, _ => []);
      records := {};
    }

    method Insert(cr: CRecord)
      requires Valid() && cr !in records && cr.bucket < CTABLE_SIZE
      modifies this`chains, this`records, heads, cr`next
      ensures Valid() && chains == old(chains)[cr.bucket := [cr] + old(chains)[cr.bucket]] && records == old(records) + {cr}
    {
      ghost var b, cs := cr.bucket, chains;
      assert InBucket(cs[b], b);
      Hook(cr, heads[cr.bucket], cs[b]);
      heads[cr.bucket] := cr;
      chains := cs[b := [cr] + cs[b]];
      records := records + {cr};
      assert InBucket(chains[b], b);
      forall i | 0 <= i < CTABLE_SIZE
        ensures Chain(heads[i], chains[i])
      {
        if i != b {
          assert old(Chain(heads[i], cs[i]));
          Elsewhere(cr, cs[i]);
        }
      }
    }

    method Remove(cr: CRecord)
      requires Valid() && cr.bucket < CTABLE_SIZE
      modifies this`chains, this`records, heads, chains[cr.bucket]`next
      ensures Valid() && chains == old(chains)[cr.bucket := Kept(old(chains)[cr.bucket], {cr})] && records == old(records) - {cr}
    {
      ghost var b, cs := cr.bucket, chains;
      var head := Drop(heads[cr.bucket], cr, cs[b]);
      heads[cr.bucket] := head;
      ghost var t := Kept(cs[b], {cr});
      chains := cs[b := t];
      records := records - {cr};
      KeptInBucket(cs[b], b, {cr});
      forall i | 0 <= i < CTABLE_SIZE
        ensures Chain(heads[i], chains[i])
      {
        if i != b {
          assert old(Chain(heads[i], cs[i]));
          assert InBucket(cs[i], i) && InBucket(cs[b], b);
          assert forall j, k :: 0 <= j < |cs[i]| && 0 <= k < |cs[b]| ==> cs[i][j] != cs[b][k];
        }
      }
      forall i, j | 0 <= i < |chains| && 0 <= j < |chains[i]|
        ensures chains[i][j] in records
      {
        if i == b {
          assert t[j] in t;
        } else {
          assert InBucket(cs[i], i);
        }
      }
    }

    /** The buckets before `n` have been scanned, the others not yet. */
    ghost predicate Upto(n: nat, was: Views, after: Views)
      reads this`chains, records, this`records
    {
      forall r :: r in records ==> r in was && r in after && r.View() == if r.bucket < n then after[r] else was[r]
    }

    ghost predicate AllJudged(sc: Rec -> (Rec, Action), was: Views, after: Views, v: Verdicts)
      reads this`records
    {
      forall r :: r in records ==> Judged(sc, was, after, v, r)
    }

    method ScanBucketAt(b: nat, l: Lists, ghost qs: seq<Picks>, ghost sc: Rec -> (Rec, Action), ghost was: Views, ghost after: Views, ghost v: Verdicts)
      returns (l': Lists)
      requires Valid() && b < CTABLE_SIZE && IsScan(sc) && AllJudged(sc, was, after, v) && Upto(b, was, after)
      requires BucketSteps(qs, chains[b], v) && Threaded(l, qs[0])
      modifies chains[b]`nattempts, chains[b]`ticks, chains[b]`ticksLeft, chains[b]`pingsTilPurge, chains[b]`ticksTilPing, chains[b]`link
      ensures Valid() && Upto(b + 1, was, after) && Threaded(l', qs[|chains[b]|])
    {
      ghost var s := chains[b];
      assert InBucket(s, b);
      l' := ScanBucket(heads[b], l, s, qs, sc, was, after, v);
      forall r | r in records
        ensures r.View() == if r.bucket < b + 1 then after[r] else was[r]
      {
        if r.bucket == b {
          var j :| 0 <= j < |s| && s[j] == r;
        }
      }
    }

    /** `ctable_scan`: every record is counted down, and the four lists hold the records with that
        verdict, each record at most once and on at most one list. */
    method ScanAll(ghost sc: Rec -> (Rec, Action), ghost was: Views, ghost after: Views, ghost v: Verdicts) returns (l: Lists, ghost q: Picks)
      requires Valid() && IsScan(sc) && AllJudged(sc, was, after, v) && Upto(0, was, after)
      modifies records`nattempts, records`ticks, records`ticksLeft, records`pingsTilPurge, records`ticksTilPing, records`link
      ensures Valid() && Upto(CTABLE_SIZE, was, after)
      ensures q == AllPicked(Flat(chains), v) && Threaded(l, q)
    {
      l := Lists(null, null, null, null);
      q := Picks([], [], [], []);
      assert chains[..0] == [];
      assert ListsAt(chains, v, 0) == q;
      var b := 0;
      while b < CTABLE_SIZE
        invariant 0 <= b <= CTABLE_SIZE && Valid() && Upto(b, was, after)
        invariant q == ListsAt(chains, v, b) && Threaded(l, q)
      {
        l, q := ScanStep(b, l, q, sc, was, after, v);
        b := b + 1;
      }
      assert chains[..CTABLE_SIZE] == chains;
    }

    method ScanStep(b: nat, l: Lists, ghost q: Picks, ghost sc: Rec -> (Rec, Action), ghost was: Views, ghost after: Views, ghost v: Verdicts)
      returns (l': Lists, ghost q': Picks)
      requires Valid() && b < CTABLE_SIZE && IsScan(sc) && AllJudged(sc, was, after, v) && Upto(b, was, after)
      requires q == ListsAt(chains, v, b) && Threaded(l, q)
      modifies chains[b]`nattempts, chains[b]`ticks, chains[b]`ticksLeft, chains[b]`pingsTilPurge, chains[b]`ticksTilPing, chains[b]`link
      ensures Valid() && Upto(b + 1, was, after)
      ensures q' == ListsAt(chains, v, b + 1) && Threaded(l', q')
    {
      ghost var qs := BucketListed(chains, v, b);
      l' := ScanBucketAt(b, l, qs, sc, was, after, v);
      q' := qs[|chains[b]|];
    }

    /** The first of the timer's loops: the records on the purge list leave the table. */
    method PurgeAll(head: CRecord?, ghost s: seq<CRecord>)
      requires Valid() && Linked(head, s) && forall k :: 0 <= k < |s| ==> s[k].bucket < CTABLE_SIZE
      modifies this`chains, this`records, heads, records`next
      ensures Valid() && records == old(records) - Firsts(s, |s|)
      ensures Without(old(chains), Firsts(s, |s|))
    {
      var purge := head;
      ghost var k, gone := 0, {};
      ghost var cs := chains;
      AllKept(cs);
      while purge != null
        invariant 0 <= k <= |s| && purge == (if k < |s| then s[k] else null) && Linked(head, s)
        invariant Valid() && gone == Firsts(s, k) && records == old(records) - gone
        invariant Without(cs, gone)
        decreases |s| - k
      {
        var cr := purge.link;
        assert s[k].link == After(s, k, null);
        PurgeOne(purge, cs, gone);
        FirstsMore(s, k);
        gone := gone + {purge};
        purge := cr;
        k := k + 1;
      }
    }

    ghost function Firsts(s: seq<CRecord>, n: nat): set<CRecord>
      requires n <= |s|
    {
      set i | 0 <= i < n :: s[i]
    }

    lemma FirstsMore(s: seq<CRecord>, n: nat)
      requires n < |s|
      ensures Firsts(s, n + 1) == Firsts(s, n) + {s[n]}
    {}

    /** The buckets are what is left of `cs` without the records in `gone`. */
    ghost predicate Without(cs: seq<seq<CRecord>>, gone: set<CRecord>)
      reads this`chains
    {
      |chains| == |cs| == CTABLE_SIZE && forall b :: 0 <= b < CTABLE_SIZE ==> chains[b] == Kept(cs[b], gone)
    }

    lemma AllKept(cs: seq<seq<CRecord>>)
      requires |chains| == CTABLE_SIZE && cs == chains
      ensures Without(cs, {})
    {
      forall b | 0 <= b < CTABLE_SIZE
        ensures chains[b] == Kept(cs[b], {})
      {
        KeptNone(cs[b], {});
      }
    }

    method PurgeOne(p: CRecord, ghost cs: seq<seq<CRecord>>, ghost gone: set<CRecord>)
      requires Valid() && p.bucket < CTABLE_SIZE && Without(cs, gone)
      modifies this`chains, this`records, heads, records`next
      ensures Valid() && records == old(records) - {p} && Without(cs, gone + {p})
    {
      ghost var d := chains;
      assert forall j :: 0 <= j < |d[p.bucket]| ==> d[p.bucket][j] in records;
      Remove(p);
      forall b | 0 <= b < CTABLE_SIZE
        ensures chains[b] == Kept(cs[b], gone + {p})
      {
        KeptTwice(cs[b], gone, {p});
        if b != p.bucket {
          assert InBucket(d[b], b);
          KeptNone(d[b], {p});
        }
      }
    }

    lemma ListsDrawn(v: Verdicts)
      requires Valid()
      ensures Drawn(AllPicked(Flat(chains), v), records, v)
    {
      assert chains[..CTABLE_SIZE] == chains;
      var s := Flat(chains);
      FlatDistinct(chains, CTABLE_SIZE);
      forall r: CRecord
        ensures r in s <==> r in records
      {
        FlatIn(chains, CTABLE_SIZE, r);
        if r.bucket < CTABLE_SIZE && r in chains[r.bucket] {
          var j :| 0 <= j < |chains[r.bucket]| && chains[r.bucket][j] == r;
        }
      }
      PickedHolds(s, records, v, PURGE);
      PickedHolds(s, records, v, TIMED);
      PickedHolds(s, records, v, PINGED);
      PickedHolds(s, records, v, RETRY);
    }

    method PurgeList(head: CRecord?, ghost s: seq<CRecord>, ghost v: Verdicts)
      requires Valid() && Linked(head, s) && Holds(s, records, v, PURGE)
      modifies this`chains, this`records, heads, records`next
      ensures Valid() && PurgedFrom(old(chains), old(records), v)
    {
      assert Firsts(s, |s|) == Purged(records, v);
      PurgeAll(head, s);
    }

    method PurgeFirst(l: Lists, ghost q: Picks, ghost after: Views, ghost v: Verdicts)
      requires Valid() && Drawn(q, records, v) && Threaded(l, q) && AllViewed(records, after, v)
      modifies this`chains, this`records, heads, records`next
      ensures Valid() && PurgedFrom(old(chains), old(records), v)
      ensures Threaded(l, q) && AllViewed(old(records), after, v)
    {
      ListDrawn(l, q, v);
      PurgeList(l.purge, q.purge, v);
    }

    lemma ListDrawn(l: Lists, q: Picks, v: Verdicts)
      requires Drawn(q, records, v) && Threaded(l, q)
      ensures Linked(l.purge, q.purge) && Holds(q.purge, records, v, PURGE)
    {}

    ghost predicate PurgedFrom(cs: seq<seq<CRecord>>, all: set<CRecord>, v: Verdicts)
      reads this`chains, this`records
    {
      && records == all - Purged(all, v) && |chains| == |cs|
      && forall b :: 0 <= b < |cs| ==> chains[b] == Kept(cs[b], Purged(all, v))
    }

    method ServeRest(l: Lists, ghost q: Picks, ghost all: set<CRecord>, ghost after: Views, ghost v: Verdicts) returns (sends: Sends)
      requires Valid() && Drawn(q, all, v) && Threaded(l, q) && AllViewed(all, after, v)
      modifies all`state, all`ticksTilPing, all`pingsTilPurge
      ensures Valid() && AllMoved(all, after, v)
      ensures sends == Pings(q.ping, after) + Repeats(q.retry, after)
    {
      sends := ServeLists(l, q, all, after, v);
    }

    /** The timer's loops over the lists of a scan. */
    method HandleLists(l: Lists, ghost q: Picks, ghost after: Views, ghost v: Verdicts) returns (sends: Sends)
      requires Valid() && Drawn(q, records, v) && Threaded(l, q) && AllViewed(records, after, v)
      modifies this`chains, this`records, heads, records
      ensures Valid() && PurgedFrom(old(chains), old(records), v) && AllMoved(old(records), after, v)
      ensures sends == Pings(q.ping, after) + Repeats(q.retry, after)
    {
      ghost var all := records;
      PurgeFirst(l, q, after, v);
      sends := ServeRest(l, q, all, after, v);
    }

    /** `timer`, one pass: exactly the records that were timed out before it leave the table, every
        bucket keeps its others in order, and each record is moved and sent what `Timer` says. */
    method TimerPass() returns (sends: Sends, ghost was: Views)
      requires Valid()
      modifies this`chains, this`records, heads, records
      ensures Valid() && was.Keys == old(records) && (forall r :: r in was ==> was[r] == old(r.View()))
      ensures records == old(records) - Expired(was) && |chains| == |old(chains)|
      ensures forall b :: 0 <= b < |chains| ==> chains[b] == Kept(old(chains)[b], Expired(was))
      ensures AllTimed(was) && SentByTimer(sends, was)
    {
      was := Snapshot();
      ghost var cs := chains;
      ghost var q;
      sends, q := ScanFrom(was);
      Outcome(cs, was, q, sends);
    }

    /** What the lists were handled for. */
    ghost predicate Handled(cs: seq<seq<CRecord>>, was: Views, q: Picks, sends: Sends)
      reads this`chains, this`records, was.Keys
    {
      var all, after, v := was.Keys, AfterScan(was), VerdictsOf(was);
      && PurgedFrom(cs, all, v) && AllMoved(all, after, v) && Drawn(q, all, v)
      && sends == Pings(q.ping, after) + Repeats(q.retry, after)
    }

    lemma Outcome(cs: seq<seq<CRecord>>, was: Views, q: Picks, sends: Sends)
      requires Handled(cs, was, q, sends)
      ensures records == was.Keys - Expired(was) && |chains| == |cs|
      ensures forall b :: 0 <= b < |chains| ==> chains[b] == Kept(cs[b], Expired(was))
      ensures AllTimed(was) && SentByTimer(sends, was)
    {
      Moved(was);
      PurgedExpired(was);
      TimerSends(was, q, sends);
    }

    ghost predicate AllTimed(was: Views)
      reads this`records, was.Keys
    {
      forall r :: r in was ==> r.View() == Timer(was[r]).0.rec && (r in records <==> Timer(was[r]).1)
    }

    ghost function Snapshot(): Views
      reads this`records, records
    {
      map r | r in records :: r.View()
    }

    lemma Moved(was: Views)
      requires AllMoved(was.Keys, AfterScan(was), VerdictsOf(was)) && records == was.Keys - Purged(was.Keys, VerdictsOf(was))
      ensures AllTimed(was)
    {
      forall r | r in was
        ensures r.View() == Timer(was[r]).0.rec && (r in records <==> Timer(was[r]).1)
      {
        TimerMoves(was, r);
      }
    }

    method ScanFrom(ghost was: Views) returns (sends: Sends, ghost q: Picks)
      requires Valid() && was == Snapshot()
      modifies this`chains, this`records, heads, records
      ensures Valid() && was.Keys == old(records) && Handled(old(chains), was, q, sends)
    {
      ScanMaps(was);
      assert was.Keys == records;
      sends, q := ScanAndHandle(Scan, was, AfterScan(was), VerdictsOf(was));
    }

    method ScanAndHandle(ghost sc: Rec -> (Rec, Action), ghost was: Views, ghost after: Views, ghost v: Verdicts) returns (sends: Sends, ghost q: Picks)
      requires Valid() && IsScan(sc) && AllJudged(sc, was, after, v) && Upto(0, was, after) && RetriesSend(after, v)
      modifies this`chains, this`records, heads, records
      ensures Valid() && PurgedFrom(old(chains), old(records), v) && AllMoved(old(records), after, v)
      ensures Drawn(q, old(records), v) && sends == Pings(q.ping, after) + Repeats(q.retry, after)
    {
      var l;
      l, q := ScanAll(sc, was, after, v);
      ListsDrawn(v);
      assert AllViewed(records, after, v);
      sends := HandleLists(l, q, after, v);
    }
  }

  ghost predicate RetriesSend(after: Views, v: Verdicts) {
    forall r :: r in after && r in v && v[r] == RETRY ==> Sending(after[r].state)
  }

  ghost function AfterScan(was: Views): Views {
    map r | r in was :: Scan(was[r]).0
  }

  ghost function VerdictsOf(was: Views): Verdicts {
    map r | r in was :: Scan(was[r]).1
  }

  /** The records that were timed out. */
  ghost function Expired(was: Views): set<CRecord> {
    set r | r in was && was[r].state == TIMEDOUT
  }

  lemma ScanMaps(was: Views)
    ensures IsScan(Scan) && RetriesSend(AfterScan(was), VerdictsOf(was))
    ensures forall r :: r in was ==> Judged(Scan, was, AfterScan(was), VerdictsOf(was), r)
  {}

  lemma PurgedExpired(was: Views)
    ensures Purged(was.Keys, VerdictsOf(was)) == Expired(was)
  {}

  lemma TimerMoves(was: Views, r: CRecord)
    requires r in was
    ensures Timer(was[r]).0.rec == if VerdictsOf(was)[r] == TIMED then SetState(AfterScan(was)[r], TIMEDOUT) else AfterScan(was)[r]
    ensures Timer(was[r]).1 <==> VerdictsOf(was)[r] != PURGE
  {}

  lemma HeldOnce(s: seq<CRecord>, was: Views, a: Action, r: CRecord)
    requires Holds(s, was.Keys, VerdictsOf(was), a)
    ensures r in s <==> r in was && VerdictsOf(was)[r] == a
    ensures forall k :: 0 <= k < |s| ==> s[k] in was
  {}

  /** Each record is sent what `Timer` says, and nothing else is sent. */
  ghost predicate SentByTimer(sends: Sends, was: Views) {
    && (forall r :: r in was ==> SentTo(sends, r) == Timer(was[r]).0.send)
    && (forall k :: 0 <= k < |sends| ==> sends[k].0 in was)
  }

  lemma TimerSends(was: Views, q: Picks, sends: Sends)
    requires Drawn(q, was.Keys, VerdictsOf(was)) && sends == Pings(q.ping, AfterScan(was)) + Repeats(q.retry, AfterScan(was))
    ensures SentByTimer(sends, was)
  {
    forall r | r in was
      ensures SentTo(sends, r) == Timer(was[r]).0.send
    {
      TimerSendsTo(was, q, sends, r);
    }
    PingsIn(q.ping, AfterScan(was));
    RepeatsIn(q.retry, AfterScan(was));
  }

  lemma {:induction false} PingsIn(s: seq<CRecord>, after: Views)
    ensures forall k :: 0 <= k < |Pings(s, after)| ==> Pings(s, after)[k].0 in after
  {
    if s != [] { PingsIn(s[..|s| - 1], after); }
  }

  lemma {:induction false} RepeatsIn(s: seq<CRecord>, after: Views)
    ensures forall k :: 0 <= k < |Repeats(s, after)| ==> Repeats(s, after)[k].0 in after
  {
    if s != [] { RepeatsIn(s[..|s| - 1], after); }
  }

  lemma TimerSendsTo(was: Views, q: Picks, sends: Sends, r: CRecord)
    requires Drawn(q, was.Keys, VerdictsOf(was)) && sends == Pings(q.ping, AfterScan(was)) + Repeats(q.retry, AfterScan(was)) && r in was
    ensures SentTo(sends, r) == Timer(was[r]).0.send
  {
    var after := AfterScan(was);
    HeldOnce(q.ping, was, PINGED, r);
    HeldOnce(q.retry, was, RETRY, r);
    SentPings(q.ping, after, r);
    SentRepeats(q.retry, after, r);
    SentToConcat(Pings(q.ping, after), Repeats(q.retry, after), r);
    TimerSent(was, r);
  }

  lemma TimerSent(was: Views, r: CRecord)
    requires r in was
    ensures var after, a := AfterScan(was)[r], VerdictsOf(was)[r];
      Timer(was[r]).0.send == if a == PINGED then [Control(PING, after.seqno, 1, 1)] else if a == RETRY then Payload(after) else []
  {}
}
