/** The detectors of OpenDPI: the callback buffer, the tables split from it by transport, and the
    dispatch of a packet through the table for its kind. `ipq_main.c`, the end of
    `ipoque_set_protocol_detection_bitmask2` and `ipoque_detection_process_packet`. */
module Dispatch {

  /** The bits of a selection mask. */
  datatype Flag = IP | INT_TCP | INT_UDP | INT_TCP_OR_UDP | HAS_PAYLOAD | NO_TCP_RETRANSMISSION | IPV6 | IPV4_OR_IPV6 | COMPLETE_TRAFFIC

  type Protocol = nat

  /** A callback: the traffic it wants, the protocols that rule it out and those it can refine, and
      what it does to the detection state. Its function is any state change at all. */
  datatype Callback<!S> = Callback(mask: set<Flag>, excluded: set<Protocol>, detection: set<Protocol>, func: S -> S)

  datatype Packet = Packet(iph: bool, tcp: bool, udp: bool, payload: bool, retransmission: bool, detected: Protocol)

  function Selection(p: Packet): set<Flag> {
    {COMPLETE_TRAFFIC}
    + (if p.iph then {IP, IPV4_OR_IPV6} else {})
    + (if p.tcp then {INT_TCP, INT_TCP_OR_UDP} else {})
    + (if p.udp then {INT_UDP, INT_TCP_OR_UDP} else {})
    + (if p.payload then {HAS_PAYLOAD} else {})
    + (if !p.retransmission then {NO_TCP_RETRANSMISSION} else {})
  }

  /** Which packets a mask lets through. */
  lemma MaskMet(p: Packet, mask: set<Flag>)
    ensures mask <= Selection(p) <==>
      && (IP in mask || IPV4_OR_IPV6 in mask ==> p.iph) && IPV6 !in mask
      && (INT_TCP in mask ==> p.tcp) && (INT_UDP in mask ==> p.udp) && (INT_TCP_OR_UDP in mask ==> p.tcp || p.udp)
      && (HAS_PAYLOAD in mask ==> p.payload) && (NO_TCP_RETRANSMISSION in mask ==> !p.retransmission)
  {
    SelectionHas(p);
    if !(mask <= Selection(p)) {
      var f :| f in mask && f !in Selection(p);
      match f {
        case IP => case INT_TCP => case INT_UDP => case INT_TCP_OR_UDP => case HAS_PAYLOAD =>
        case NO_TCP_RETRANSMISSION => case IPV6 => case IPV4_OR_IPV6 => case COMPLETE_TRAFFIC =>
      }
    }
  }

  lemma SelectionHas(p: Packet)
    ensures (IP in Selection(p) <==> p.iph) && (IPV4_OR_IPV6 in Selection(p) <==> p.iph) && IPV6 !in Selection(p)
    ensures (INT_TCP in Selection(p) <==> p.tcp) && (INT_UDP in Selection(p) <==> p.udp)
    ensures (INT_TCP_OR_UDP in Selection(p) <==> p.tcp || p.udp) && (HAS_PAYLOAD in Selection(p) <==> p.payload)
    ensures (NO_TCP_RETRANSMISSION in Selection(p) <==> !p.retransmission) && COMPLETE_TRAFFIC in Selection(p)
  {}

  // ----- the split ------------------------------------------------------------------------------

  predicate ForTcp(mask: set<Flag>) {
    mask * {INT_TCP, INT_TCP_OR_UDP, COMPLETE_TRAFFIC} != {}
  }

  predicate ForUdp(mask: set<Flag>) {
    mask * {INT_UDP, INT_TCP_OR_UDP, COMPLETE_TRAFFIC} != {}
  }

  predicate ForOther(mask: set<Flag>) {
    mask * {INT_TCP, INT_UDP, INT_TCP_OR_UDP} == {} || COMPLETE_TRAFFIC in mask
  }

  datatype Tables<!S> = Tables(tcpPayload: seq<Callback<S>>, tcpNoPayload: seq<Callback<S>>, udp: seq<Callback<S>>, other: seq<Callback<S>>)

  function Filter<T>(p: T -> bool, s: seq<T>): seq<T> {
    if s == [] then []
    else
      var r := Filter(p, s[..|s| - 1]);
      if p(s[|s| - 1]) then r + [s[|s| - 1]] else r
  }

  lemma FilterSnoc<T>(p: T -> bool, s: seq<T>, i: nat)
    requires i < |s|
    ensures Filter(p, s[..i + 1]) == Filter(p, s[..i]) + if p(s[i]) then [s[i]] else []
  {
    assert s[..i + 1][..i] == s[..i];
  }

  function Split<S>(buffer: seq<Callback<S>>): Tables<S> {
    Tables(
      Filter((c: Callback<S>) => ForTcp(c.mask), buffer),
      Filter((c: Callback<S>) => ForTcp(c.mask) && HAS_PAYLOAD !in c.mask, buffer),
      Filter((c: Callback<S>) => ForUdp(c.mask), buffer),
      Filter((c: Callback<S>) => ForOther(c.mask), buffer))
  }

  /** The loops that fill the tables. */
  method BuildTables<S>(buffer: seq<Callback<S>>) returns (t: Tables<S>)
    ensures t == Split(buffer)
  {
    t := Tables([], [], [], []);
    var p1 := (c: Callback<S>) => ForTcp(c.mask);
    var p2 := (c: Callback<S>) => ForTcp(c.mask) && HAS_PAYLOAD !in c.mask;
    var p3 := (c: Callback<S>) => ForUdp(c.mask);
    var p4 := (c: Callback<S>) => ForOther(c.mask);
    var a := 0;
    while a < |buffer|
      invariant 0 <= a <= |buffer|
      invariant t == Tables(Filter(p1, buffer[..a]), Filter(p2, buffer[..a]), [], [])
    {
      FilterSnoc(p1, buffer, a);
      FilterSnoc(p2, buffer, a);
      if ForTcp(buffer[a].mask) {
        t := t.(tcpPayload := t.tcpPayload + [buffer[a]]);
        if HAS_PAYLOAD !in buffer[a].mask {
          t := t.(tcpNoPayload := t.tcpNoPayload + [buffer[a]]);
        }
      }
      a := a + 1;
    }
    assert buffer[..a] == buffer;
    a := 0;
    while a < |buffer|
      invariant 0 <= a <= |buffer|
      invariant t == Tables(Filter(p1, buffer), Filter(p2, buffer), Filter(p3, buffer[..a]), [])
    {
      FilterSnoc(p3, buffer, a);
      if ForUdp(buffer[a].mask) {
        t := t.(udp := t.udp + [buffer[a]]);
      }
      a := a + 1;
    }
    assert buffer[..a] == buffer;
    a := 0;
    while a < |buffer|
      invariant 0 <= a <= |buffer|
      invariant t == Tables(Filter(p1, buffer), Filter(p2, buffer), Filter(p3, buffer), Filter(p4, buffer[..a]))
    {
      FilterSnoc(p4, buffer, a);
      if ForOther(buffer[a].mask) {
        t := t.(other := t.other + [buffer[a]]);
      }
      a := a + 1;
    }
    assert buffer[..a] == buffer;
  }

  // ----- walking --------------------------------------------------------------------------------

  /** What the detectors left behind: the state, and who was called, in order. */
  datatype Outcome<!S> = Outcome(state: S, calls: seq<Callback<S>>)

  /** The full test: the mask, the protocols excluded in the flow (if there is one), and the
      protocols detected before the packet. */
  predicate Wanted<S>(c: Callback<S>, p: Packet, excluded: set<Protocol>) {
    c.mask <= Selection(p) && excluded * c.excluded == {} && p.detected in c.detection
  }

  /** Walks a table; `excluded` reads the excluded protocols off the state, and `only` restricts
      the walk. */
  function Walk<S>(cs: seq<Callback<S>>, only: Callback<S> -> bool, p: Packet, excluded: S -> set<Protocol>, s: S): Outcome<S> {
    if cs == [] then Outcome(s, [])
    else
      var c := cs[|cs| - 1];
      var o := Walk(cs[..|cs| - 1], only, p, excluded, s);
      if only(c) && Wanted(c, p, excluded(o.state)) then Outcome(c.func(o.state), o.calls + [c]) else o
  }

  lemma WalkSnoc<S>(cs: seq<Callback<S>>, c: Callback<S>, only: Callback<S> -> bool, p: Packet, excluded: S -> set<Protocol>, s: S)
    ensures var o := Walk(cs, only, p, excluded, s);
      Walk(cs + [c], only, p, excluded, s) ==
        if only(c) && Wanted(c, p, excluded(o.state)) then Outcome(c.func(o.state), o.calls + [c]) else o
  {
    assert (cs + [c])[..|cs|] == cs;
  }

  /** A filtered table behaves like the whole buffer with the filter as a restriction, as long as
      the filter keeps every callback that the restriction and the packet let through. */
  lemma {:induction false} WalkFiltered<S(!new)>(cs: seq<Callback<S>>, keep: Callback<S> -> bool, only: Callback<S> -> bool,
                                           p: Packet, excluded: S -> set<Protocol>, s: S)
    requires forall c: Callback<S> :: c.mask <= Selection(p) ==> (keep(c) <==> only(c))
    ensures Walk(Filter(keep, cs), _ => true, p, excluded, s) == Walk(cs, only, p, excluded, s)
  {
    if cs != [] {
      var init, c := cs[..|cs| - 1], cs[|cs| - 1];
      WalkFiltered(init, keep, only, p, excluded, s);
      if keep(c) {
        WalkSnoc(Filter(keep, init), c, _ => true, p, excluded, s);
      }
    }
  }

  /** The dispatch loop over one table. */
  method RunTable<S>(table: seq<Callback<S>>, p: Packet, excluded: S -> set<Protocol>, s: S) returns (o: Outcome<S>)
    ensures o == Walk(table, _ => true, p, excluded, s)
  {
    var only: Callback<S> -> bool := _ => true;
    o := Outcome(s, []);
    var a := 0;
    while a < |table|
      invariant 0 <= a <= |table| && o == Walk(table[..a], only, p, excluded, s)
    {
      WalkSnoc(table[..a], table[a], only, p, excluded, s);
      assert table[..a] + [table[a]] == table[..a + 1];
      if table[a].mask <= Selection(p) && excluded(o.state) * table[a].excluded == {} && p.detected in table[a].detection {
        o := Outcome(table[a].func(o.state), o.calls + [table[a]]);
      }
      a := a + 1;
    }
    assert table[..a] == table;
  }

  /** What the dispatch amounts to: the whole buffer is walked with the full test, for TCP and UDP
      packets only the callbacks that name the transport or want all traffic. */
  function Reference<S>(buffer: seq<Callback<S>>, p: Packet, flow: bool, excluded: S -> set<Protocol>, s: S): Outcome<S> {
    var ex := if flow then excluded else (_ => {});
    if !flow && (p.tcp || p.udp) then Outcome(s, [])
    else if p.tcp then Walk(buffer, (c: Callback<S>) => ForTcp(c.mask), p, ex, s)
    else if p.udp then Walk(buffer, (c: Callback<S>) => ForUdp(c.mask), p, ex, s)
    else Walk(buffer, (c: Callback<S>) => true, p, ex, s)
  }

  lemma OtherMasks(p: Packet, mask: set<Flag>)
    requires !p.tcp && !p.udp && mask <= Selection(p)
    ensures ForOther(mask)
  {
    assert INT_TCP !in Selection(p) && INT_UDP !in Selection(p) && INT_TCP_OR_UDP !in Selection(p);
  }

  lemma NoPayloadMasks(p: Packet, mask: set<Flag>)
    requires !p.payload && mask <= Selection(p)
    ensures HAS_PAYLOAD !in mask
  {}

  /** The four tables give what the reference gives. */
  lemma TablesSuffice<S(!new)>(buffer: seq<Callback<S>>, p: Packet, excluded: S -> set<Protocol>, s: S)
    ensures var t := Split(buffer);
      && Walk(t.tcpPayload, _ => true, p, excluded, s) == Walk(buffer, (c: Callback<S>) => ForTcp(c.mask), p, excluded, s)
      && (!p.payload ==> Walk(t.tcpNoPayload, _ => true, p, excluded, s) == Walk(buffer, (c: Callback<S>) => ForTcp(c.mask), p, excluded, s))
      && Walk(t.udp, _ => true, p, excluded, s) == Walk(buffer, (c: Callback<S>) => ForUdp(c.mask), p, excluded, s)
      && (!p.tcp && !p.udp ==> Walk(t.other, _ => true, p, excluded, s) == Walk(buffer, (c: Callback<S>) => true, p, excluded, s))
  {
    var tcp, udp, all := (c: Callback<S>) => ForTcp(c.mask), (c: Callback<S>) => ForUdp(c.mask), (c: Callback<S>) => true;
    WalkFiltered(buffer, tcp, tcp, p, excluded, s);
    WalkFiltered(buffer, udp, udp, p, excluded, s);
    if !p.payload {
      forall c: Callback<S> | c.mask <= Selection(p)
        ensures HAS_PAYLOAD !in c.mask
      {
        NoPayloadMasks(p, c.mask);
      }
      WalkFiltered(buffer, (c: Callback<S>) => ForTcp(c.mask) && HAS_PAYLOAD !in c.mask, tcp, p, excluded, s);
    }
    if !p.tcp && !p.udp {
      forall c: Callback<S> | c.mask <= Selection(p)
        ensures ForOther(c.mask)
      {
        OtherMasks(p, c.mask);
      }
      WalkFiltered(buffer, (c: Callback<S>) => ForOther(c.mask), all, p, excluded, s);
    }
  }

  /** The dispatch of `ipoque_detection_process_packet`: the same calls in the same order and the
      same final state as the reference. */
  method ProcessPacket<S(!new)>(t: Tables<S>, p: Packet, flow: bool, excluded: S -> set<Protocol>, s: S, ghost buffer: seq<Callback<S>>)
    returns (o: Outcome<S>)
    requires t == Split(buffer)
    ensures o == Reference(buffer, p, flow, excluded, s)
  {
    if !flow && (p.tcp || p.udp) {
      return Outcome(s, []);
    }
    var ex := if flow then excluded else (_ => {});
    TablesSuffice(buffer, p, ex, s);
    if flow && p.tcp {
      if p.payload {
        o := RunTable(t.tcpPayload, p, ex, s);
      } else {
        o := RunTable(t.tcpNoPayload, p, ex, s);
      }
    } else if flow && p.udp {
      o := RunTable(t.udp, p, ex, s);
    } else {
      o := RunTable(t.other, p, ex, s);
    }
  }

  // ----- what the split amounts to --------------------------------------------------------------

  /** The callback says which transports it is for, or that it wants all traffic. */
  predicate Marked(mask: set<Flag>) {
    INT_TCP in mask || INT_UDP in mask || INT_TCP_OR_UDP in mask || COMPLETE_TRAFFIC in mask
  }

  lemma {:induction false} WalkUnrestricted<S(!new)>(cs: seq<Callback<S>>, only: Callback<S> -> bool, p: Packet, excluded: S -> set<Protocol>, s: S)
    requires forall c :: c in cs && c.mask <= Selection(p) ==> only(c)
    ensures Walk(cs, only, p, excluded, s) == Walk(cs, (c: Callback<S>) => true, p, excluded, s)
  {
    if cs != [] {
      WalkUnrestricted(cs[..|cs| - 1], only, p, excluded, s);
    }
  }

  /** If every callback is marked, the split makes no difference: every packet of a flow is dispatched as
      if the whole buffer were walked with the full test. */
  lemma MarkedSuffices<S(!new)>(buffer: seq<Callback<S>>, p: Packet, excluded: S -> set<Protocol>, s: S)
    requires !(p.tcp && p.udp) && forall c :: c in buffer ==> Marked(c.mask)
    ensures Reference(buffer, p, true, excluded, s) == Walk(buffer, (c: Callback<S>) => true, p, excluded, s)
  {
    forall c | c in buffer && c.mask <= Selection(p)
      ensures (p.tcp ==> ForTcp(c.mask)) && (p.udp ==> ForUdp(c.mask))
    {
      MaskMet(p, c.mask);
      MarkedFor(c.mask);
    }
    if p.tcp {
      WalkUnrestricted(buffer, (c: Callback<S>) => ForTcp(c.mask), p, excluded, s);
    } else if p.udp {
      WalkUnrestricted(buffer, (c: Callback<S>) => ForUdp(c.mask), p, excluded, s);
    }
  }

  lemma MarkedFor(mask: set<Flag>)
    ensures ForTcp(mask) <==> INT_TCP in mask || INT_TCP_OR_UDP in mask || COMPLETE_TRAFFIC in mask
    ensures ForUdp(mask) <==> INT_UDP in mask || INT_TCP_OR_UDP in mask || COMPLETE_TRAFFIC in mask
  {
    var t, u := mask * {INT_TCP, INT_TCP_OR_UDP, COMPLETE_TRAFFIC}, mask * {INT_UDP, INT_TCP_OR_UDP, COMPLETE_TRAFFIC};
    assert INT_TCP in mask ==> INT_TCP in t;
    assert INT_UDP in mask ==> INT_UDP in u;
    assert INT_TCP_OR_UDP in mask ==> INT_TCP_OR_UDP in t && INT_TCP_OR_UDP in u;
    assert COMPLETE_TRAFFIC in mask ==> COMPLETE_TRAFFIC in t && COMPLETE_TRAFFIC in u;
  }

  /** A callback that is not marked is never called for a TCP or UDP packet, whatever it wants. */
  lemma {:induction false} UnmarkedSkipped<S(!new)>(buffer: seq<Callback<S>>, p: Packet, flow: bool, excluded: S -> set<Protocol>, s: S, c: Callback<S>)
    requires (p.tcp || p.udp) && !Marked(c.mask)
    ensures c !in Reference(buffer, p, flow, excluded, s).calls
  {
    MarkedFor(c.mask);
    CallsOnly(buffer, (c: Callback<S>) => ForTcp(c.mask), p, excluded, s, c);
    CallsOnly(buffer, (c: Callback<S>) => ForUdp(c.mask), p, excluded, s, c);
  }

  lemma {:induction false} CallsOnly<S(!new)>(cs: seq<Callback<S>>, only: Callback<S> -> bool, p: Packet, excluded: S -> set<Protocol>, s: S, c: Callback<S>)
    requires !only(c)
    ensures c !in Walk(cs, only, p, excluded, s).calls
  {
    if cs != [] {
      CallsOnly(cs[..|cs| - 1], only, p, excluded, s, c);
    }
  }
}
