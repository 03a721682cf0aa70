/** The tracked TCP sequence numbers of a flow, 32 bits wide, against stream offsets without bound:
    `ipoque_connection_tracking` in `ipq_main.c`. Sequence numbers are compared as in section 3.3
    of RFC 793. */
module TcpTracker {

  const MOD := 0x1_0000_0000
  const WINDOW := 0x1_0000

  type u32 = x: int | 0 <= x < 0x1_0000_0000
  type u16 = x: int | 0 <= x < 0x1_0000

  /** Unsigned 32-bit arithmetic. */
  function Wrap(x: int): u32 {
    x % MOD
  }

  /** A TCP packet: its direction, sequence and acknowledgement numbers, and payload length. */
  datatype Packet = Packet(dir: bool, sn: u32, ack: u32, len: u16, rst: bool)

  /** What the tracker tells about a packet. */
  datatype Report = Report(retransmission: bool, retried: int, actual: int)

  class Flow {
    var next: map<bool, u32>       // next_tcp_seq_nr, by direction

    ghost predicate Valid()
      reads this
    {
      next.Keys == {false, true}
    }

    constructor ()
      ensures Valid() && next[false] == 0 && next[true] == 0
    {
      next := map[false := 0, true := 0];
    }

    /** The part of `ipoque_connection_tracking` for TCP packets. */
    method Track(p: Packet) returns (r: Report)
      requires Valid()
      modifies this
      ensures Valid() && (next, r) == Tracked(old(next), p)
    {
      r := Report(false, 0, p.len);
      if next[false] == 0 && next[true] == 0 {
        if p.sn != 0 && p.ack != 0 {
          next := next[p.dir := Wrap(p.sn + p.len)];
          next := next[!p.dir := p.ack];
        }
      } else if p.len > 0 {
        if Wrap(p.sn - next[p.dir]) > WINDOW {
          r := r.(retransmission := true);
          if Wrap(next[p.dir] - p.sn) < p.len {
            r := r.(retried := Wrap(next[p.dir] - p.sn));
            r := r.(actual := p.len - r.retried);
            next := next[p.dir := Wrap(p.sn + p.len)];
          }
        } else {
          next := next[p.dir := Wrap(p.sn + p.len)];
        }
      }
      if p.rst {
        next := next[false := 0][true := 0];
      }
    }
  }

  /** The counters and the report after a packet. */
  function Tracked(next: map<bool, u32>, p: Packet): (map<bool, u32>, Report)
    requires next.Keys == {false, true}
  {
    var plain := Report(false, 0, p.len);
    var (n, r) :=
      if next[false] == 0 && next[true] == 0 then
        (if p.sn != 0 && p.ack != 0 then next[p.dir := Wrap(p.sn + p.len)][!p.dir := p.ack] else next, plain)
      else if p.len == 0 then (next, plain)
      else if Wrap(p.sn - next[p.dir]) <= WINDOW then (next[p.dir := Wrap(p.sn + p.len)], plain)
      else if Wrap(next[p.dir] - p.sn) < p.len then
        (next[p.dir := Wrap(p.sn + p.len)], Report(true, Wrap(next[p.dir] - p.sn), p.len - Wrap(next[p.dir] - p.sn)))
      else (next, plain.(retransmission := true));
    (if p.rst then n[false := 0][true := 0] else n, r)
  }

  // ----- streams --------------------------------------------------------------------------------

  /** The same packet with the offset in its stream where its payload starts, and the offset in the
      other stream that it acknowledges. */
  datatype Segment = Segment(packet: Packet, start: int, acked: int)

  /** How far the streams of both directions have been seen. */
  type Ends = map<bool, int>

  ghost predicate Tracks(next: map<bool, u32>, ends: Ends) {
    && next.Keys == {false, true} && ends.Keys == {false, true}
    && next[false] == Wrap(ends[false]) && next[true] == Wrap(ends[true])
  }

  /** The highest offset seen, after a segment. */
  function Seen(ends: Ends, s: Segment): Ends
    requires ends.Keys == {false, true}
  {
    var d, stop := s.packet.dir, s.start + s.packet.len;
    if s.packet.len > 0 && stop > ends[d] then ends[d := stop] else ends
  }

  /** A segment that starts at most the window ahead of the end seen so far, and less than
      2^32 - window behind it. */
  ghost predicate InReach(ends: Ends, s: Segment)
    requires ends.Keys == {false, true}
  {
    s.packet.sn == Wrap(s.start) && -(MOD - WINDOW) < s.start - ends[s.packet.dir] <= WINDOW
  }

  lemma WrapOf(x: int, y: int)
    requires 0 <= y < MOD && exists k :: x == y + k * MOD
    ensures Wrap(x) == y
  {
    var k :| x == y + k * MOD;
    assert (y + k * MOD) % MOD == y;
  }

  lemma WrapDiff(a: int, b: int)
    ensures Wrap(Wrap(a) - Wrap(b)) == Wrap(a - b)
  {
    var k := a / MOD - b / MOD;
    assert Wrap(a) - Wrap(b) == (a - b) - k * MOD;
    var y := Wrap(a - b);
    assert a - b == y + (a - b) / MOD * MOD;
    assert Wrap(a) - Wrap(b) == y + ((a - b) / MOD - k) * MOD;
    WrapOf(Wrap(a) - Wrap(b), y);
  }

  lemma WrapSum(a: int, n: int)
    ensures Wrap(Wrap(a) + n) == Wrap(a + n)
  {
    var y := Wrap(a + n);
    assert a + n == y + (a + n) / MOD * MOD;
    assert Wrap(a) + n == y + ((a + n) / MOD - a / MOD) * MOD;
    WrapOf(Wrap(a) + n, y);
  }

  /** Ahead of the end, or at it: the difference is the distance. */
  lemma Ahead(start: int, end: int)
    requires 0 <= start - end < MOD
    ensures Wrap(Wrap(start) - Wrap(end)) == start - end
  {
    WrapDiff(start, end);
  }

  /** Behind it, the difference is 2^32 less the distance. */
  lemma Behind(start: int, end: int)
    requires 0 < end - start < MOD
    ensures Wrap(Wrap(start) - Wrap(end)) == MOD - (end - start) && Wrap(Wrap(end) - Wrap(start)) == end - start
  {
    WrapDiff(start, end);
    WrapDiff(end, start);
    WrapOf(start - end, MOD - (end - start)) by { assert start - end == MOD - (end - start) + (-1) * MOD; }
  }

  /** What there is to tell about a segment, in terms of offsets: it is a retransmission if it starts
      before the end seen so far, and a partial one if it goes past it. */
  function Truth(ends: Ends, s: Segment): Report
    requires ends.Keys == {false, true}
  {
    var end, stop := ends[s.packet.dir], s.start + s.packet.len;
    if s.packet.len == 0 || s.start >= end then Report(false, 0, s.packet.len)
    else if end < stop then Report(true, end - s.start, stop - end)
    else Report(true, 0, s.packet.len)
  }

  /** One packet: the counter goes on to be the highest offset modulo 2^32, and the report is true. */
  lemma TracksOn(next: map<bool, u32>, ends: Ends, s: Segment)
    requires Tracks(next, ends) && !(next[false] == 0 && next[true] == 0) && InReach(ends, s)
    ensures !s.packet.rst ==> Tracks(Tracked(next, s.packet).0, Seen(ends, s))
    ensures Tracked(next, s.packet).1 == Truth(ends, s)
  {
    var d := s.packet.dir;
    assert next[d] == Wrap(ends[d]);
    if s.start >= ends[d] {
      Ahead(s.start, ends[d]);
    } else {
      Behind(s.start, ends[d]);
    }
    WrapSum(s.start, s.packet.len);
  }

  /** A reset clears both counters, whatever they were and whatever else the packet is. */
  lemma ResetClears(next: map<bool, u32>, p: Packet)
    requires next.Keys == {false, true} && p.rst
    ensures Tracked(next, p).0 == map[false := 0, true := 0]
  {}

  /** When exactly: as long as a segment is less than 2^32 - 2^16 away, its counter is right if and
      only if it is not further ahead than the window. */
  lemma TracksOnIff(next: map<bool, u32>, ends: Ends, s: Segment)
    requires Tracks(next, ends) && !(next[false] == 0 && next[true] == 0) && !s.packet.rst && s.packet.len > 0
    requires s.packet.sn == Wrap(s.start) && -(MOD - WINDOW) < s.start - ends[s.packet.dir] <= MOD - 0x1_0000
    ensures Tracks(Tracked(next, s.packet).0, Seen(ends, s)) <==> s.start - ends[s.packet.dir] <= WINDOW
  {
    var d := s.packet.dir;
    if s.start - ends[d] <= WINDOW {
      TracksOn(next, ends, s);
    } else {
      Ahead(s.start, ends[d]);
      Behind(ends[d], s.start);
      assert Tracked(next, s.packet).0 == next;
      Apart(ends[d], s.start + s.packet.len);
    }
  }

  lemma Apart(a: int, b: int)
    requires 0 < b - a < MOD
    ensures Wrap(a) != Wrap(b)
  {
    if Wrap(a) == Wrap(b) {
      Ahead(b, a);
    }
  }

  /** The edge of the window: 65536 ahead is taken, 65537 ahead is not. */
  lemma WindowEdge(next: map<bool, u32>, p: Packet, q: Packet)
    requires next == map[false := 1000, true := 7] && p == Packet(false, 66536, 0, 1, false) && q == p.(sn := 66537)
    ensures Tracked(next, p).0[false] == 66537 && Tracked(next, p).1 == Report(false, 0, 1)
    ensures Tracked(next, q).0 == next && Tracked(next, q).1 == Report(true, 0, 1)
  {
    assert Wrap(66536 - 1000) == 65536 && Wrap(66537 - 1000) == 65537;
  }

  // ----- whole runs -----------------------------------------------------------------------------

  /** Both counters are zero, which the code takes for not initialised. */
  predicate Blank(next: map<bool, u32>)
    requires next.Keys == {false, true}
  {
    next[false] == 0 && next[true] == 0
  }

  /** Where the streams of a flow end, if they are followed. A reset ends that; the first packet after
      it with sequence and acknowledgement numbers that are not zero starts two new streams, which
      end where its payload ends and where it acknowledges the other side. */
  datatype View = Unknown | Known(ends: Ends)

  function After(v: View, s: Segment): View
    requires v.Known? ==> v.ends.Keys == {false, true}
    ensures After(v, s).Known? ==> After(v, s).ends.Keys == {false, true}
  {
    if s.packet.rst then Unknown
    else match v
      case Known(ends) => Known(Seen(ends, s))
      case Unknown =>
        if s.packet.sn == 0 || s.packet.ack == 0 then Unknown
        else Known(map[s.packet.dir := s.start + s.packet.len, !s.packet.dir := s.acked])
  }

  function TruthOf(v: View, s: Segment): Report
    requires v.Known? ==> v.ends.Keys == {false, true}
  {
    if v.Known? then Truth(v.ends, s) else Report(false, 0, s.packet.len)
  }

  ghost predicate Follows(next: map<bool, u32>, v: View) {
    && next.Keys == {false, true}
    && match v
       case Unknown => Blank(next)
       case Known(ends) => Tracks(next, ends)
  }

  /** The offsets are those of the packet; and a stream that is followed must not have come to a
      multiple of 2^32 on both sides, and the segment is in reach. */
  ghost predicate Regular(v: View, s: Segment)
    requires v.Known? ==> v.ends.Keys == {false, true}
  {
    && s.packet.sn == Wrap(s.start) && s.packet.ack == Wrap(s.acked)
    && (v.Known? ==> InReach(v.ends, s) && !(Wrap(v.ends[false]) == 0 && Wrap(v.ends[true]) == 0))
  }

  /** One packet of any kind. */
  lemma Step(next: map<bool, u32>, v: View, s: Segment)
    requires Follows(next, v) && Regular(v, s)
    ensures Follows(Tracked(next, s.packet).0, After(v, s)) && Tracked(next, s.packet).1 == TruthOf(v, s)
  {
    if v.Known? {
      TracksOn(next, v.ends, s);
    } else {
      WrapSum(s.start, s.packet.len);
    }
    if s.packet.rst {
      ResetClears(next, s.packet);
    }
  }

  /** The counters after the segments `ss`, and what there is to know of the streams. */
  function Counters(next: map<bool, u32>, ss: seq<Segment>): map<bool, u32>
    requires next.Keys == {false, true}
    ensures Counters(next, ss).Keys == {false, true}
  {
    if ss == [] then next else Tracked(Counters(next, ss[..|ss| - 1]), ss[|ss| - 1].packet).0
  }

  function ViewAfter(ss: seq<Segment>): View
    ensures ViewAfter(ss).Known? ==> ViewAfter(ss).ends.Keys == {false, true}
  {
    if ss == [] then Unknown else After(ViewAfter(ss[..|ss| - 1]), ss[|ss| - 1])
  }

  ghost predicate RegularRun(ss: seq<Segment>) {
    forall k :: 0 <= k < |ss| ==> Regular(ViewAfter(ss[..k]), ss[k])
  }

  /** Over every such run, resets and all, from the start of a flow: the counters are the highest
      offsets of the streams that are followed, modulo 2^32, and zero while there are none; and every
      packet is reported truly. */
  lemma {:induction false} RunTracks(ss: seq<Segment>, k: nat)
    requires RegularRun(ss) && k <= |ss|
    ensures Follows(Counters(map[false := 0, true := 0], ss[..k]), ViewAfter(ss[..k]))
    ensures k < |ss| ==> Tracked(Counters(map[false := 0, true := 0], ss[..k]), ss[k].packet).1 == TruthOf(ViewAfter(ss[..k]), ss[k])
  {
    var zero: map<bool, u32> := map[false := 0, true := 0];
    if k > 0 {
      RunTracks(ss, k - 1);
      assert ss[..k][..k - 1] == ss[..k - 1];
      Step(Counters(zero, ss[..k - 1]), ViewAfter(ss[..k - 1]), ss[k - 1]);
    }
    if k < |ss| {
      Step(Counters(zero, ss[..k]), ViewAfter(ss[..k]), ss[k]);
    }
  }

  /** The highest offset in direction `d` of the segments from `from` on, or `least`. */
  function Highest(ss: seq<Segment>, from: nat, d: bool, least: int): int
    requires from <= |ss|
    decreases |ss|
  {
    if |ss| == from then least
    else
      var s, h := ss[|ss| - 1], Highest(ss[..|ss| - 1], from, d, least);
      if s.packet.dir == d && s.packet.len > 0 && s.start + s.packet.len > h then s.start + s.packet.len else h
  }

  /** What is known of the streams: if the last reset came before packet `i` and packet `i` is the first
      after it that starts streams, they end at the highest offsets from there on. */
  lemma {:induction false} KnownSince(ss: seq<Segment>, i: nat)
    requires i < |ss| && ViewAfter(ss[..i]) == Unknown && ss[i].packet.sn != 0 && ss[i].packet.ack != 0
    requires forall k :: i <= k < |ss| ==> !ss[k].packet.rst
    ensures var d := ss[i].packet.dir;
      ViewAfter(ss) == Known(map[
        d := Highest(ss, i + 1, d, ss[i].start + ss[i].packet.len),
        !d := Highest(ss, i + 1, !d, ss[i].acked)])
  {
    var n := |ss| - 1;
    if i < n {
      assert ss[..n][..i] == ss[..i];
      KnownSince(ss[..n], i);
    } else {
      assert ss[..n] == ss[..i];
    }
  }

  /** Before that, and after a reset, nothing is known: the counters stay zero. */
  lemma {:induction false} UnknownUntil(ss: seq<Segment>, i: nat)
    requires i <= |ss| && (i == 0 || ss[i - 1].packet.rst)
    requires forall k :: i <= k < |ss| ==> ss[k].packet.sn == 0 || ss[k].packet.ack == 0
    ensures ViewAfter(ss) == Unknown
  {
    var n := |ss| - 1;
    if i < |ss| {
      UnknownUntil(ss[..n], i);
    }
  }
}
