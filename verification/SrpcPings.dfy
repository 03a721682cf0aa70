/** As long as its pings are answered, a record that waits for nothing is never given up. */
module SrpcPings {
  import opened Options
  import opened Octets
  import opened SrpcRecord
  import opened SrpcSystem
  import opened SrpcSafety

  // ----- one record -----------------------------------------------------------------------------

  /** What happens to a record: a scan, something that sets its state, or nothing that matters here. */
  datatype Event = Scanned | Touched | Still

  ghost predicate Full(r: Rec) {
    r.ticksTilPing == TICKS_BETWEEN_PINGS && r.pingsTilPurge == PINGS_BEFORE_PURGE
  }

  ghost predicate Occurs(r: Rec, e: Event, r': Rec) {
    match e
    case Scanned => r' == Timer(r).0.rec
    case Touched => Full(r')
    case Still => r'.state == r.state && r'.ticksTilPing == r.ticksTilPing && r'.pingsTilPurge == r.pingsTilPurge
  }

  ghost predicate Trace(rs: seq<Rec>, es: seq<Event>) {
    && |rs| == |es| + 1 && Full(rs[0])
    && forall i {:trigger Occurs(rs[i], es[i], rs[i + 1])} :: 0 <= i < |es| ==> Occurs(rs[i], es[i], rs[i + 1])
  }

  /** How many of the events from `i` to before `n` are scans. */
  function Scans(es: seq<Event>, i: nat, n: nat): nat
    requires n <= |es|
    decreases n
  {
    if n <= i then 0 else Scans(es, i, n - 1) + if es[n - 1] == Scanned then 1 else 0
  }

  predicate PingAt(rs: seq<Rec>, es: seq<Event>, i: nat) {
    i < |es| && i < |rs| && es[i] == Scanned && Scan(rs[i]).1 == PINGED
  }

  predicate TouchedIn(es: seq<Event>, i: nat, n: nat) {
    exists k :: i < k < n && k < |es| && es[k] == Touched
  }

  /** Before the 3000 scans after a ping are over, something arrives. */
  ghost predicate Answered(rs: seq<Rec>, es: seq<Event>) {
    forall i: nat, n: nat {:trigger PingAt(rs, es, i), Scans(es, i + 1, n)} ::
      PingAt(rs, es, i) && i < n <= |es| && Scans(es, i + 1, n) >= TICKS_BETWEEN_PINGS ==> TouchedIn(es, i, n)
  }

  /** A ping that waits for its answer: no scan but those counted since then. */
  ghost predicate Waiting(rs: seq<Rec>, es: seq<Event>, i: nat, n: nat)
    requires i < n < |rs| && |rs| == |es| + 1
  {
    && PingAt(rs, es, i) && !TouchedIn(es, i, n) && !Sending(rs[n].state) && rs[n].state != TIMEDOUT
    && rs[n].pingsTilPurge == PINGS_BEFORE_PURGE - 1 && rs[n].ticksTilPing + Scans(es, i + 1, n) == TICKS_BETWEEN_PINGS
  }

  ghost predicate Kept(rs: seq<Rec>, es: seq<Event>, n: nat)
    requires n < |rs| && |rs| == |es| + 1
  {
    && 1 <= rs[n].ticksTilPing <= TICKS_BETWEEN_PINGS
    && (rs[n].pingsTilPurge == PINGS_BEFORE_PURGE || exists i :: 0 <= i < n && Waiting(rs, es, i, n))
  }

  lemma KeptFull(rs: seq<Rec>, es: seq<Event>, n: nat)
    requires Trace(rs, es) && n < |es| && rs[n].pingsTilPurge == PINGS_BEFORE_PURGE && 1 <= rs[n].ticksTilPing <= TICKS_BETWEEN_PINGS
    ensures Kept(rs, es, n + 1)
  {
    assert Occurs(rs[n], es[n], rs[n + 1]);
    if PingAt(rs, es, n) {
      assert Scans(es, n + 1, n + 1) == 0;
      assert Waiting(rs, es, n, n + 1);
    }
  }

  lemma NotTouchedYet(es: seq<Event>, i: nat, n: nat)
    requires n < |es| && es[n] != Touched && !TouchedIn(es, i, n)
    ensures !TouchedIn(es, i, n + 1)
  {}

  lemma KeptWaiting(rs: seq<Rec>, es: seq<Event>, i: nat, n: nat)
    requires Trace(rs, es) && Answered(rs, es) && i < n < |es| && Waiting(rs, es, i, n) && 1 <= rs[n].ticksTilPing <= TICKS_BETWEEN_PINGS
    ensures Kept(rs, es, n + 1)
  {
    assert Occurs(rs[n], es[n], rs[n + 1]);
    if es[n] == Scanned {
      assert Scans(es, i + 1, n + 1) == Scans(es, i + 1, n) + 1;
      NotTouchedYet(es, i, n);
      assert rs[n].ticksTilPing > 1;
      assert Waiting(rs, es, i, n + 1);
    } else if es[n] == Still {
      assert Scans(es, i + 1, n + 1) == Scans(es, i + 1, n);
      assert Waiting(rs, es, i, n + 1);
    }
  }

  lemma {:induction false} TraceKept(rs: seq<Rec>, es: seq<Event>, n: nat)
    requires Trace(rs, es) && Answered(rs, es) && n < |rs|
    ensures Kept(rs, es, n)
  {
    if n > 0 {
      TraceKept(rs, es, n - 1);
      if rs[n - 1].pingsTilPurge == PINGS_BEFORE_PURGE {
        KeptFull(rs, es, n - 1);
      } else {
        var i :| 0 <= i < n - 1 && Waiting(rs, es, i, n - 1);
        KeptWaiting(rs, es, i, n - 1);
      }
    }
  }

  /** So no scan gives the record up, unless it waits for the answer to something it sent. */
  lemma NotGivenUp(rs: seq<Rec>, es: seq<Event>, n: nat)
    requires Trace(rs, es) && Answered(rs, es) && n < |rs| && !Sending(rs[n].state)
    ensures Scan(rs[n]).1 != TIMED
  {
    TraceKept(rs, es, n);
  }

  // ----- the client's record --------------------------------------------------------------------

  /** What step `p` is to the client's record. */
  ghost function ClientEvent(y: System, p: Step): Event
    requires Enabled(y, p)
  {
    if p == ClientTimer && y.clLive then Scanned else if Full(Next(y, p).cl) then Touched else Still
  }

  ghost function ServerEvent(y: System, p: Step): Event
    requires Enabled(y, p)
  {
    if p == ServerTimer && y.svLive then Scanned else if Full(Next(y, p).sv) then Touched else Still
  }

  /** A packet sets the record's state, or leaves it and its ping counters alone. */
  lemma MsgTouches(r: Rec, m: Msg)
    ensures var r' := OnMsg(r, m).rec;
      Full(r') || (r'.state == r.state && r'.ticksTilPing == r.ticksTilPing && r'.pingsTilPurge == r.pingsTilPurge)
  {}

  lemma QueryPieceTouches(y: System, q: seq<byte>, f: nat)
    requires |q| > 0 && 1 <= f <= NFrags(|q|)
    ensures var z := SendQueryPiece(y, q, f); Full(z.cl) && z.sv == y.sv
  {}

  lemma ResponsePieceTouches(y: System, r: seq<byte>, f: nat)
    requires |r| > 0 && 1 <= f <= NFrags(|r|)
    ensures var z := SendResponsePiece(y, r, f); Full(z.sv) && z.cl == y.cl
  {}

  lemma CallTouches(y: System, p: Step)
    requires Enabled(y, p) && (p.CallStart? || p.CallNext?)
    ensures var z := Next(y, p); (Full(z.cl) || z.cl == y.cl) && z.sv == y.sv
  {
    if p.CallStart? {
      var s := y.cl.seqno + 1;
      QueryPieceTouches(y.(cl := y.cl.(seqno := s), h := y.h.(calls := y.h.calls[s := p.query])), p.query, 1);
    } else if |y.cpc.query| > 0 && y.cpc.fnum + 1 <= NFrags(|y.cpc.query|) {
      QueryPieceTouches(y, y.cpc.query, y.cpc.fnum + 1);
    }
  }

  lemma RespondTouches(y: System, p: Step)
    requires Enabled(y, p) && (p.RespondStart? || p.RespondNext?)
    ensures var z := Next(y, p); (Full(z.sv) || z.sv == y.sv) && z.cl == y.cl
  {
    if p.RespondStart? {
      ResponsePieceTouches(y.(h := y.h.(resps := y.h.resps[y.sv.seqno := p.response])), p.response, 1);
    } else if |y.spc.response| > 0 && y.spc.fnum + 1 <= NFrags(|y.spc.response|) {
      ResponsePieceTouches(y, y.spc.response, y.spc.fnum + 1);
    }
  }

  lemma OtherTouches(y: System, p: Step)
    requires Enabled(y, p) && !p.CallStart? && !p.CallNext? && !p.RespondStart? && !p.RespondNext?
    ensures Occurs(y.cl, ClientEvent(y, p), Next(y, p).cl) && Occurs(y.sv, ServerEvent(y, p), Next(y, p).sv)
  {
    match p
    case ToServer(i) => MsgTouches(y.sv, y.c2s[i]);
    case ToClient(i) => MsgTouches(y.cl, y.s2c[i]);
    case _ =>
  }

  lemma StepOccurs(y: System, p: Step)
    requires Enabled(y, p)
    ensures Occurs(y.cl, ClientEvent(y, p), Next(y, p).cl) && Occurs(y.sv, ServerEvent(y, p), Next(y, p).sv)
  {
    if p.CallStart? || p.CallNext? {
      CallTouches(y, p);
    } else if p.RespondStart? || p.RespondNext? {
      RespondTouches(y, p);
    } else {
      OtherTouches(y, p);
    }
  }

  // ----- packets stay on the network ------------------------------------------------------------

  ghost predicate More(y: System, z: System) {
    y.c2s <= z.c2s && y.s2c <= z.s2c
  }

  lemma CallSends(y: System, p: Step)
    requires Enabled(y, p) && (p.CallStart? || p.CallNext?)
    ensures More(y, Next(y, p))
  {}

  lemma RespondSends(y: System, p: Step)
    requires Enabled(y, p) && (p.RespondStart? || p.RespondNext?)
    ensures More(y, Next(y, p))
  {}

  lemma OtherSends(y: System, p: Step)
    requires Enabled(y, p) && !p.CallStart? && !p.CallNext? && !p.RespondStart? && !p.RespondNext?
    ensures More(y, Next(y, p))
  {}

  lemma MoreSent(y: System, p: Step)
    requires Enabled(y, p)
    ensures More(y, Next(y, p))
  {
    if p.CallStart? || p.CallNext? {
      CallSends(y, p);
    } else if p.RespondStart? || p.RespondNext? {
      RespondSends(y, p);
    } else {
      OtherSends(y, p);
    }
  }

  ghost predicate MoreAt(ys: seq<System>, k: nat) {
    k + 1 < |ys| && More(ys[k], ys[k + 1])
  }

  lemma {:induction false} MoreAlong(ys: seq<System>, i: nat, n: nat)
    requires i <= n < |ys| && forall k :: i <= k < n ==> MoreAt(ys, k)
    ensures More(ys[i], ys[n])
    decreases n
  {
    if i < n {
      MoreAlong(ys, i, n - 1);
      assert MoreAt(ys, n - 1);
    }
  }

  lemma StillSent(s0: nat, ps: seq<Step>, ys: seq<System>, i: nat, n: nat)
    requires Run(s0, ps, ys) && i <= n < |ys|
    ensures More(ys[i], ys[n])
  {
    forall k | i <= k < n
      ensures MoreAt(ys, k)
    {
      MoreSent(ys[k], ps[k]);
    }
    MoreAlong(ys, i, n);
  }

  /** A packet of the client, or of the server, stays where it is. */
  lemma ClientPacketStays(s0: nat, ps: seq<Step>, ys: seq<System>, i: nat, n: nat, k: nat)
    requires Run(s0, ps, ys) && i <= n < |ys| && k < |ys[i].c2s|
    ensures k < |ys[n].c2s| && ys[n].c2s[k] == ys[i].c2s[k]
  {
    StillSent(s0, ps, ys, i, n);
  }

  lemma ServerPacketStays(s0: nat, ps: seq<Step>, ys: seq<System>, i: nat, n: nat, k: nat)
    requires Run(s0, ps, ys) && i <= n < |ys| && k < |ys[i].s2c|
    ensures k < |ys[n].s2c| && ys[n].s2c[k] == ys[i].s2c[k]
  {
    StillSent(s0, ps, ys, i, n);
  }

  // ----- runs -----------------------------------------------------------------------------------

  ghost function ClientTrace(s0: nat, ps: seq<Step>, ys: seq<System>): (es: seq<Event>)
    requires Run(s0, ps, ys)
    ensures |es| == |ps| && forall i :: 0 <= i < |ps| ==> es[i] == ClientEvent(ys[i], ps[i])
  {
    seq(|ps|, i requires 0 <= i < |ps| => ClientEvent(ys[i], ps[i]))
  }

  ghost function ServerTrace(s0: nat, ps: seq<Step>, ys: seq<System>): (es: seq<Event>)
    requires Run(s0, ps, ys)
    ensures |es| == |ps| && forall i :: 0 <= i < |ps| ==> es[i] == ServerEvent(ys[i], ps[i])
  {
    seq(|ps|, i requires 0 <= i < |ps| => ServerEvent(ys[i], ps[i]))
  }

  ghost function Clients(ys: seq<System>): (rs: seq<Rec>)
    ensures |rs| == |ys| && forall i :: 0 <= i < |ys| ==> rs[i] == ys[i].cl
  {
    seq(|ys|, i requires 0 <= i < |ys| => ys[i].cl)
  }

  ghost function Servers(ys: seq<System>): (rs: seq<Rec>)
    ensures |rs| == |ys| && forall i :: 0 <= i < |ys| ==> rs[i] == ys[i].sv
  {
    seq(|ys|, i requires 0 <= i < |ys| => ys[i].sv)
  }

  /** Between steps `i` and `n`: the packet that the client sends at step `i` reaches a server that has the
      connection, and the server's answer reaches the client. */
  ghost predicate ThereAndBack(ps: seq<Step>, ys: seq<System>, i: nat, n: nat)
    requires |ys| == |ps| + 1 && i < n <= |ps|
  {
    exists j, k :: i < j < k < n && ps[j] == ToServer(|ys[i].c2s|) && ys[j].svLive && ps[k] == ToClient(|ys[j].s2c|) && ys[k].clLive
  }

  ghost predicate BackAndThere(ps: seq<Step>, ys: seq<System>, i: nat, n: nat)
    requires |ys| == |ps| + 1 && i < n <= |ps|
  {
    exists j, k :: i < j < k < n && ps[j] == ToClient(|ys[i].s2c|) && ys[j].clLive && ps[k] == ToServer(|ys[j].c2s|) && ys[k].svLive
  }

  /** Each ping of the client makes its round trip before 3000 more scans of the client are over. */
  ghost predicate ClientPingsReturn(s0: nat, ps: seq<Step>, ys: seq<System>)
    requires Run(s0, ps, ys)
  {
    var rs, es := Clients(ys), ClientTrace(s0, ps, ys);
    forall i: nat, n: nat {:trigger PingAt(rs, es, i), Scans(es, i + 1, n)} ::
      PingAt(rs, es, i) && i < n <= |es| && Scans(es, i + 1, n) >= TICKS_BETWEEN_PINGS ==> ThereAndBack(ps, ys, i, n)
  }

  ghost predicate ServerPingsReturn(s0: nat, ps: seq<Step>, ys: seq<System>)
    requires Run(s0, ps, ys)
  {
    var rs, es := Servers(ys), ServerTrace(s0, ps, ys);
    forall i: nat, n: nat {:trigger PingAt(rs, es, i), Scans(es, i + 1, n)} ::
      PingAt(rs, es, i) && i < n <= |es| && Scans(es, i + 1, n) >= TICKS_BETWEEN_PINGS ==> BackAndThere(ps, ys, i, n)
  }

  lemma ClientTraceOk(s0: nat, ps: seq<Step>, ys: seq<System>)
    requires Run(s0, ps, ys)
    ensures Trace(Clients(ys), ClientTrace(s0, ps, ys))
  {
    forall i | 0 <= i < |ps|
      ensures Occurs(ys[i].cl, ClientEvent(ys[i], ps[i]), ys[i + 1].cl)
    {
      StepOccurs(ys[i], ps[i]);
    }
  }

  lemma ServerTraceOk(s0: nat, ps: seq<Step>, ys: seq<System>)
    requires Run(s0, ps, ys)
    ensures Trace(Servers(ys), ServerTrace(s0, ps, ys))
  {
    forall i | 0 <= i < |ps|
      ensures Occurs(ys[i].sv, ServerEvent(ys[i], ps[i]), ys[i + 1].sv)
    {
      StepOccurs(ys[i], ps[i]);
    }
  }

  /** What a ping brings about: the PACK, and that sets the state. */
  lemma ClientPingSent(y: System)
    requires y.clLive && Scan(y.cl).1 == PINGED
    ensures Next(y, ClientTimer).c2s == y.c2s + [Control(PING, y.cl.seqno, 1, 1)]
  {}

  lemma ServerPongs(y: System, i: nat)
    requires y.svLive && i < |y.c2s| && y.c2s[i].cmd == PING
    ensures Next(y, ToServer(i)).s2c == y.s2c + [Control(PACK, y.c2s[i].seqno, 1, 1)]
  {}

  lemma PackTouchesClient(y: System, i: nat)
    requires y.clLive && i < |y.s2c| && y.s2c[i].cmd == PACK
    ensures Full(Next(y, ToClient(i)).cl) && Next(y, ToClient(i)).cl.state == y.cl.state
  {}

  lemma ServerPingSent(y: System)
    requires y.svLive && Scan(y.sv).1 == PINGED
    ensures Next(y, ServerTimer).s2c == y.s2c + [Control(PING, y.sv.seqno, 1, 1)]
  {}

  lemma ClientPongs(y: System, i: nat)
    requires y.clLive && i < |y.s2c| && y.s2c[i].cmd == PING
    ensures Next(y, ToClient(i)).c2s == y.c2s + [Control(PACK, y.s2c[i].seqno, 1, 1)]
  {}

  lemma PackTouchesServer(y: System, i: nat)
    requires y.svLive && i < |y.c2s| && y.c2s[i].cmd == PACK
    ensures Full(Next(y, ToServer(i)).sv) && Next(y, ToServer(i)).sv.state == y.sv.state
  {}

  /** The ping of step `i` is at its place at step `j`, and the answer of step `j` at its place at step `k`. */
  lemma ClientPingAt(s0: nat, ps: seq<Step>, ys: seq<System>, i: nat, j: nat)
    requires Run(s0, ps, ys) && i < j < |ys| && ps[i] == ClientTimer && ys[i].clLive && Scan(ys[i].cl).1 == PINGED
    ensures |ys[i].c2s| < |ys[j].c2s| && ys[j].c2s[|ys[i].c2s|].cmd == PING
  {
    ClientPingSent(ys[i]);
    ClientPacketStays(s0, ps, ys, i + 1, j, |ys[i].c2s|);
  }

  lemma ServerPongAt(s0: nat, ps: seq<Step>, ys: seq<System>, j: nat, k: nat, m: nat)
    requires Run(s0, ps, ys) && j < k < |ys| && ps[j] == ToServer(m) && ys[j].svLive && m < |ys[j].c2s| && ys[j].c2s[m].cmd == PING
    ensures |ys[j].s2c| < |ys[k].s2c| && ys[k].s2c[|ys[j].s2c|].cmd == PACK
  {
    ServerPongs(ys[j], m);
    ServerPacketStays(s0, ps, ys, j + 1, k, |ys[j].s2c|);
  }

  lemma ServerPingAt(s0: nat, ps: seq<Step>, ys: seq<System>, i: nat, j: nat)
    requires Run(s0, ps, ys) && i < j < |ys| && ps[i] == ServerTimer && ys[i].svLive && Scan(ys[i].sv).1 == PINGED
    ensures |ys[i].s2c| < |ys[j].s2c| && ys[j].s2c[|ys[i].s2c|].cmd == PING
  {
    ServerPingSent(ys[i]);
    ServerPacketStays(s0, ps, ys, i + 1, j, |ys[i].s2c|);
  }

  lemma ClientPongAt(s0: nat, ps: seq<Step>, ys: seq<System>, j: nat, k: nat, m: nat)
    requires Run(s0, ps, ys) && j < k < |ys| && ps[j] == ToClient(m) && ys[j].clLive && m < |ys[j].s2c| && ys[j].s2c[m].cmd == PING
    ensures |ys[j].c2s| < |ys[k].c2s| && ys[k].c2s[|ys[j].c2s|].cmd == PACK
  {
    ClientPongs(ys[j], m);
    ClientPacketStays(s0, ps, ys, j + 1, k, |ys[j].c2s|);
  }

  lemma ClientPongArrives(s0: nat, ps: seq<Step>, ys: seq<System>, i: nat, j: nat, k: nat)
    requires Run(s0, ps, ys) && i < j < k < |ps| && ps[i] == ClientTimer && ys[i].clLive && Scan(ys[i].cl).1 == PINGED
    requires ps[j] == ToServer(|ys[i].c2s|) && ys[j].svLive && ps[k] == ToClient(|ys[j].s2c|) && ys[k].clLive
    ensures ClientEvent(ys[k], ps[k]) == Touched
  {
    ClientPingAt(s0, ps, ys, i, j);
    ServerPongAt(s0, ps, ys, j, k, |ys[i].c2s|);
    PackTouchesClient(ys[k], |ys[j].s2c|);
  }

  lemma ServerPongArrives(s0: nat, ps: seq<Step>, ys: seq<System>, i: nat, j: nat, k: nat)
    requires Run(s0, ps, ys) && i < j < k < |ps| && ps[i] == ServerTimer && ys[i].svLive && Scan(ys[i].sv).1 == PINGED
    requires ps[j] == ToClient(|ys[i].s2c|) && ys[j].clLive && ps[k] == ToServer(|ys[j].c2s|) && ys[k].svLive
    ensures ServerEvent(ys[k], ps[k]) == Touched
  {
    ServerPingAt(s0, ps, ys, i, j);
    ClientPongAt(s0, ps, ys, j, k, |ys[i].s2c|);
    PackTouchesServer(ys[k], |ys[j].c2s|);
  }

  lemma ClientRoundTrip(s0: nat, ps: seq<Step>, ys: seq<System>, i: nat, n: nat)
    requires Run(s0, ps, ys) && PingAt(Clients(ys), ClientTrace(s0, ps, ys), i) && i < n <= |ps| && ThereAndBack(ps, ys, i, n)
    ensures TouchedIn(ClientTrace(s0, ps, ys), i, n)
  {
    var j, k :| i < j < k < n && ps[j] == ToServer(|ys[i].c2s|) && ys[j].svLive && ps[k] == ToClient(|ys[j].s2c|) && ys[k].clLive;
    ClientPongArrives(s0, ps, ys, i, j, k);
    assert ClientTrace(s0, ps, ys)[k] == Touched;
  }

  lemma ServerRoundTrip(s0: nat, ps: seq<Step>, ys: seq<System>, i: nat, n: nat)
    requires Run(s0, ps, ys) && PingAt(Servers(ys), ServerTrace(s0, ps, ys), i) && i < n <= |ps| && BackAndThere(ps, ys, i, n)
    ensures TouchedIn(ServerTrace(s0, ps, ys), i, n)
  {
    var j, k :| i < j < k < n && ps[j] == ToClient(|ys[i].s2c|) && ys[j].clLive && ps[k] == ToServer(|ys[j].c2s|) && ys[k].svLive;
    ServerPongArrives(s0, ps, ys, i, j, k);
    assert ServerTrace(s0, ps, ys)[k] == Touched;
  }

  /** Over every run in which its pings return in time, no scan ever gives up the client's record, unless
      it waits for the answer to something it sent. */
  lemma ClientKeptUp(s0: nat, ps: seq<Step>, ys: seq<System>, n: nat)
    requires Run(s0, ps, ys) && ClientPingsReturn(s0, ps, ys) && n < |ys| && !Sending(ys[n].cl.state)
    ensures Scan(ys[n].cl).1 != TIMED
  {
    var rs, es := Clients(ys), ClientTrace(s0, ps, ys);
    ClientTraceOk(s0, ps, ys);
    forall i: nat, k: nat | PingAt(rs, es, i) && i < k <= |es| && Scans(es, i + 1, k) >= TICKS_BETWEEN_PINGS
      ensures TouchedIn(es, i, k)
    {
      ClientRoundTrip(s0, ps, ys, i, k);
    }
    NotGivenUp(rs, es, n);
  }

  /** The same for the server's record. */
  lemma ServerKeptUp(s0: nat, ps: seq<Step>, ys: seq<System>, n: nat)
    requires Run(s0, ps, ys) && ServerPingsReturn(s0, ps, ys) && n < |ys| && !Sending(ys[n].sv.state)
    ensures Scan(ys[n].sv).1 != TIMED
  {
    var rs, es := Servers(ys), ServerTrace(s0, ps, ys);
    ServerTraceOk(s0, ps, ys);
    forall i: nat, k: nat | PingAt(rs, es, i) && i < k <= |es| && Scans(es, i + 1, k) >= TICKS_BETWEEN_PINGS
      ensures TouchedIn(es, i, k)
    {
      ServerRoundTrip(s0, ps, ys, i, k);
    }
    NotGivenUp(rs, es, n);
  }
}
