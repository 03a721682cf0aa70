/** How a connection is kept up and how it ends: pings, and disconnecting. */
module SrpcLife {
  import opened Options
  import opened Octets
  import opened Guards
  import opened SrpcRecord
  import opened SrpcSystem
  import opened SrpcSafety

  // ----- answers to PING and DISCONNECT ---------------------------------------------------------

  /** A PING leaves a record as it is, and is answered by exactly one PACK. */
  lemma PingAnswered(s0: nat, ps: seq<Step>, ys: seq<System>, n: nat, i: nat)
    requires Run(s0, ps, ys) && n < |ys|
    ensures i < |ys[n].c2s| && ys[n].c2s[i].cmd == PING ==>
      var y, z := ys[n], Next(ys[n], ToServer(i));
      z == if y.svLive then y.(s2c := y.s2c + [Msg(PACK, y.c2s[i].seqno, 1, 1, 0, [])]) else y
    ensures i < |ys[n].s2c| && ys[n].s2c[i].cmd == PING ==>
      var y, z := ys[n], Next(ys[n], ToClient(i));
      z == if y.clLive then y.(last := i, c2s := y.c2s + [Msg(PACK, y.s2c[i].seqno, 1, 1, 0, [])]) else y.(last := i)
  {
    RunInv(s0, ps, ys, n);
  }

  /** A DISCONNECT is answered by exactly one DACK, record or no record, and ends the record. */
  lemma DisconnectAnswered(s0: nat, ps: seq<Step>, ys: seq<System>, n: nat, i: nat)
    requires Run(s0, ps, ys) && n < |ys| && i < |ys[n].c2s| && ys[n].c2s[i].cmd == DISCONNECT
    ensures var y, z := ys[n], Next(ys[n], ToServer(i));
      && z == y.(sv := z.sv, s2c := y.s2c + [Msg(DACK, y.c2s[i].seqno, 1, 1, 0, [])])
      && z.sv == if y.svLive then SetState(y.sv, TIMEDOUT) else y.sv
  {
    RunInv(s0, ps, ys, n);
  }

  // ----- nothing is answered that was not asked -------------------------------------------------

  predicate Leaving(cpc: ClientPc) {
    cpc == Disconnecting || cpc == Closed
  }

  ghost predicate AskedByClient(m: Msg, cpc: ClientPc, s2c: seq<Msg>) {
    && m.cmd != DACK
    && (m.cmd == PING ==> m == Control(PING, m.seqno, 1, 1))
    && (m.cmd == DISCONNECT ==> m == Control(DISCONNECT, m.seqno, 1, 1) && Leaving(cpc))
    && (m.cmd == PACK ==> Control(PING, m.seqno, 1, 1) in s2c)
  }

  ghost predicate AskedByServer(m: Msg, c2s: seq<Msg>) {
    && m.cmd != DISCONNECT
    && (m.cmd == PING ==> m == Control(PING, m.seqno, 1, 1))
    && (m.cmd == DACK ==> Control(DISCONNECT, m.seqno, 1, 1) in c2s)
    && (m.cmd == PACK ==> Control(PING, m.seqno, 1, 1) in c2s)
  }

  ghost predicate Asked(y: System) {
    && (forall i :: 0 <= i < |y.c2s| ==> AskedByClient(y.c2s[i], y.cpc, y.s2c))
    && (forall i :: 0 <= i < |y.s2c| ==> AskedByServer(y.s2c[i], y.c2s))
  }

  lemma AskedGrows(y: System, z: System, a: seq<Msg>, b: seq<Msg>)
    requires Asked(y) && z.c2s == y.c2s + a && z.s2c == y.s2c + b && (Leaving(y.cpc) ==> Leaving(z.cpc))
    requires forall i :: 0 <= i < |a| ==> a[i] in y.c2s || AskedByClient(a[i], z.cpc, y.s2c)
    requires forall i :: 0 <= i < |b| ==> b[i] in y.s2c || AskedByServer(b[i], y.c2s)
    ensures Asked(z)
  {
    forall i | 0 <= i < |z.c2s|
      ensures AskedByClient(z.c2s[i], z.cpc, z.s2c)
    {
      if i >= |y.c2s| && a[i - |y.c2s|] in y.c2s {
        var j :| 0 <= j < |y.c2s| && y.c2s[j] == a[i - |y.c2s|];
      }
    }
    forall i | 0 <= i < |z.s2c|
      ensures AskedByServer(z.s2c[i], z.c2s)
    {
      if i >= |y.s2c| && b[i - |y.s2c|] in y.s2c {
        var j :| 0 <= j < |y.s2c| && y.s2c[j] == b[i - |y.s2c|];
      }
    }
  }

  lemma ClientAnswersAsked(cl: Rec, m: Msg, c2s: seq<Msg>, s2c: seq<Msg>, cpc: ClientPc)
    requires m in s2c && AskedByServer(m, c2s) && (cl.pl.Some? ==> cl.pl.value in c2s)
    ensures var a := OnMsg(cl, m).send; forall i :: 0 <= i < |a| ==> a[i] in c2s || AskedByClient(a[i], cpc, s2c)
  {}

  lemma ServerAnswersAsked(sv: Rec, m: Msg, c2s: seq<Msg>, s2c: seq<Msg>, cpc: ClientPc)
    requires m in c2s && AskedByClient(m, cpc, s2c) && (sv.pl.Some? ==> sv.pl.value in s2c)
    ensures var b := OnMsg(sv, m).send; forall i :: 0 <= i < |b| ==> b[i] in s2c || AskedByServer(b[i], c2s)
  {}

  lemma ToServerAsked(y: System, i: nat)
    requires Inv(y) && Asked(y) && ToServerOk(y, i)
    ensures Asked(DoToServer(y, i))
  {
    var m, z := y.c2s[i], DoToServer(y, i);
    if y.svLive {
      ServerAnswersAsked(y.sv, m, y.c2s, y.s2c, y.cpc);
      AskedGrows(y, z, [], OnMsg(y.sv, m).send);
    } else if m.cmd == CONNECT && !y.svBorn {
      AskedGrows(y, z, [], [Control(CACK, m.seqno, 1, 1)]);
    } else if m.cmd == DISCONNECT {
      AskedGrows(y, z, [], [Control(DACK, m.seqno, 1, 1)]);
    }
  }

  lemma ToClientAsked(y: System, i: nat)
    requires Inv(y) && Asked(y) && i < |y.s2c|
    ensures Asked(DoToClient(y, i))
  {
    if y.clLive {
      ClientAnswersAsked(y.cl, y.s2c[i], y.c2s, y.s2c, y.cpc);
      AskedGrows(y, DoToClient(y, i), OnMsg(y.cl, y.s2c[i]).send, []);
    }
  }

  lemma TimersAsked(y: System)
    requires Inv(y) && Asked(y)
    ensures Asked(DoClientTimer(y)) && Asked(DoServerTimer(y))
  {
    TimerEffect(y.cl);
    TimerEffect(y.sv);
    if y.clLive { AskedGrows(y, DoClientTimer(y), Timer(y.cl).0.send, []); }
    if y.svLive { AskedGrows(y, DoServerTimer(y), [], Timer(y.sv).0.send); }
  }

  lemma QueryAsked(y: System, q: seq<byte>, f: nat)
    requires Asked(y) && !Leaving(y.cpc) && |q| > 0 && 1 <= f <= NFrags(|q|)
    ensures Asked(SendQueryPiece(y, q, f))
  {
    AskedGrows(y, SendQueryPiece(y, q, f), [Piece(QUERY, y.cl.seqno, q, f)], []);
  }

  lemma ResponseAsked(y: System, r: seq<byte>, f: nat)
    requires Asked(y) && |r| > 0 && 1 <= f <= NFrags(|r|)
    ensures Asked(SendResponsePiece(y, r, f))
  {
    AskedGrows(y, SendResponsePiece(y, r, f), [], [Piece(RESPONSE, y.sv.seqno, r, f)]);
  }

  lemma CallStartAsked(y: System, q: seq<byte>)
    requires Asked(y) && CallStartOk(y, q)
    ensures Asked(DoCallStart(y, q))
  {
    if y.clLive && y.cl.state == IDLE {
      var s := y.cl.seqno + 1;
      NFragsBounds(|q|);
      QueryAsked(y.(cl := y.cl.(seqno := s), h := y.h.(calls := y.h.calls[s := q])), q, 1);
    }
  }

  lemma CallNextAsked(y: System)
    requires Asked(y) && CallNextOk(y)
    ensures Asked(DoCallNext(y))
  {
    var q, f := y.cpc.query, y.cpc.fnum;
    if y.cl.state == TIMEDOUT {
      AskedGrows(y, DoCallNext(y), [], []);
    } else if |q| > 0 && f + 1 <= NFrags(|q|) {
      QueryAsked(y, q, f + 1);
    }
  }

  lemma RespondStartAsked(y: System, r: seq<byte>)
    requires Asked(y) && RespondStartOk(y, r)
    ensures Asked(DoRespondStart(y, r))
  {
    if y.svLive && y.sv.state == QACK_SENT {
      NFragsBounds(|r|);
      ResponseAsked(y.(h := y.h.(resps := y.h.resps[y.sv.seqno := r])), r, 1);
    }
  }

  lemma RespondNextAsked(y: System)
    requires Asked(y) && RespondNextOk(y)
    ensures Asked(DoRespondNext(y))
  {
    var r, f := y.spc.response, y.spc.fnum;
    if y.sv.state != TIMEDOUT && |r| > 0 && f + 1 <= NFrags(|r|) {
      ResponseAsked(y, r, f + 1);
    }
  }

  lemma ThreadAsked(y: System, p: Step)
    requires Asked(y) && Enabled(y, p) && (p.ConnectDone? || p.CallFinish? || p.DisconnectDone? || p.TakeQuery?)
    ensures Asked(Next(y, p))
  {
    AskedGrows(y, Next(y, p), [], []);
  }

  lemma DisconnectAsked(y: System)
    requires Asked(y) && y.cpc == Ready
    ensures Asked(DoDisconnect(y))
  {
    if y.clLive {
      AskedGrows(y, DoDisconnect(y), [Control(DISCONNECT, y.cl.seqno, 1, 1)], []);
    }
  }

  lemma NextAsked(y: System, p: Step)
    requires Inv(y) && Asked(y) && Enabled(y, p)
    ensures Asked(Next(y, p))
  {
    match p
    case CallStart(q) => CallStartAsked(y, q);
    case CallNext => CallNextAsked(y);
    case RespondStart(r) => RespondStartAsked(y, r);
    case RespondNext => RespondNextAsked(y);
    case ToServer(i) => ToServerAsked(y, i);
    case ToClient(i) => ToClientAsked(y, i);
    case ClientTimer => TimersAsked(y);
    case ServerTimer => TimersAsked(y);
    case Disconnect => DisconnectAsked(y);
    case _ => ThreadAsked(y, p);
  }

  lemma {:induction false} RunAsked(s0: nat, ps: seq<Step>, ys: seq<System>, n: nat)
    requires Run(s0, ps, ys) && n < |ys|
    ensures Inv(ys[n]) && Asked(ys[n])
  {
    RunInv(s0, ps, ys, n);
    if n > 0 {
      RunAsked(s0, ps, ys, n - 1);
      NextAsked(ys[n - 1], ps[n - 1]);
    }
  }

  /** Over every run, as long as the client has not disconnected: no packet ends a connection. A record only
      times out by the verdict of its own timer. */
  lemma EndedByTimerOnly(s0: nat, ps: seq<Step>, ys: seq<System>, n: nat)
    requires Run(s0, ps, ys) && n < |ps| && !Leaving(ys[n].cpc)
    ensures ys[n + 1].sv.state == TIMEDOUT && ys[n].sv.state != TIMEDOUT ==> ps[n] == ServerTimer && ys[n].svLive && Scan(ys[n].sv).1 == TIMED
    ensures ys[n + 1].cl.state == TIMEDOUT && ys[n].cl.state != TIMEDOUT ==> ps[n] == ClientTimer && ys[n].clLive && Scan(ys[n].cl).1 == TIMED
  {
    RunAsked(s0, ps, ys, n);
    StepEnds(ys[n], ps[n]);
  }

  /** Neither a DISCONNECT nor a DACK is on the network then. */
  lemma NoneLeaving(y: System)
    requires Asked(y) && !Leaving(y.cpc)
    ensures forall i :: 0 <= i < |y.c2s| ==> y.c2s[i].cmd != DISCONNECT && y.c2s[i].cmd != DACK
    ensures forall i :: 0 <= i < |y.s2c| ==> y.s2c[i].cmd != DISCONNECT && y.s2c[i].cmd != DACK
  {
    forall i | 0 <= i < |y.s2c|
      ensures y.s2c[i].cmd != DISCONNECT && y.s2c[i].cmd != DACK
    {
      assert AskedByServer(y.s2c[i], y.c2s);
    }
  }

  lemma MsgEnds(r: Rec, m: Msg)
    requires m.cmd != DISCONNECT && m.cmd != DACK
    ensures OnMsg(r, m).rec.state == TIMEDOUT ==> r.state == TIMEDOUT
  {}

  ghost predicate EndsByTimer(y: System, p: Step)
    requires Enabled(y, p)
  {
    && (Next(y, p).sv.state == TIMEDOUT && y.sv.state != TIMEDOUT ==> p == ServerTimer && y.svLive && Scan(y.sv).1 == TIMED)
    && (Next(y, p).cl.state == TIMEDOUT && y.cl.state != TIMEDOUT ==> p == ClientTimer && y.clLive && Scan(y.cl).1 == TIMED)
  }

  lemma StepEnds(y: System, p: Step)
    requires Asked(y) && !Leaving(y.cpc) && Enabled(y, p)
    ensures EndsByTimer(y, p)
  {
    if p.ToServer? || p.ToClient? {
      NoneLeaving(y);
      PacketEnds(y, p);
    } else {
      OtherEnds(y, p);
    }
  }

  lemma PacketEnds(y: System, p: Step)
    requires Enabled(y, p) && (p.ToServer? || p.ToClient?)
    requires p.ToServer? ==> y.c2s[p.i].cmd != DISCONNECT && y.c2s[p.i].cmd != DACK
    requires p.ToClient? ==> y.s2c[p.i].cmd != DISCONNECT && y.s2c[p.i].cmd != DACK
    ensures EndsByTimer(y, p)
  {
    if p.ToServer? {
      MsgEnds(y.sv, y.c2s[p.i]);
    } else {
      MsgEnds(y.cl, y.s2c[p.i]);
    }
  }

  lemma OtherEnds(y: System, p: Step)
    requires Enabled(y, p) && !p.ToServer? && !p.ToClient?
    ensures EndsByTimer(y, p)
  {}

  // ----- disconnecting --------------------------------------------------------------------------

  ghost predicate OnTheWay(y: System) {
    y.cpc == Disconnecting ==> Control(DISCONNECT, y.cl.seqno, 1, 1) in y.c2s
  }

  /** Only a call gives the client another sequence number. */
  lemma ClientKeepsSeqno(cpc: ClientPc, cl: Rec, h: History, m: Msg)
    requires HistoryOk(h) && ClientOk(cpc, cl, h) && ServerSent(m, h)
    ensures OnMsg(cl, m).rec.seqno == cl.seqno
  {
    if m.cmd == FRAGMENT {
      assert Logged(h, m.seqno);
    }
  }

  lemma OnTheWayStays(y: System, z: System)
    requires OnTheWay(y) && y.cpc == z.cpc && z.cl.seqno == y.cl.seqno && y.c2s <= z.c2s
    ensures OnTheWay(z)
  {
    if y.cpc == Disconnecting {
      var i :| 0 <= i < |y.c2s| && y.c2s[i] == Control(DISCONNECT, y.cl.seqno, 1, 1);
      assert z.c2s[i] == y.c2s[i];
    }
  }

  lemma NextOnTheWay(y: System, p: Step)
    requires Inv(y) && OnTheWay(y) && Enabled(y, p)
    ensures OnTheWay(Next(y, p))
  {
    match p
    case ToClient(i) => ClientKeepsSeqno(y.cpc, y.cl, y.h, y.s2c[i]); OnTheWayStays(y, Next(y, p));
    case ToServer(i) => OnTheWayStays(y, Next(y, p));
    case ClientTimer => TimerEffect(y.cl); OnTheWayStays(y, Next(y, p));
    case _ => OtherOnTheWay(y, p);
  }

  lemma OtherOnTheWay(y: System, p: Step)
    requires OnTheWay(y) && Enabled(y, p) && !p.ToClient? && !p.ToServer? && !p.ClientTimer?
    ensures OnTheWay(Next(y, p))
  {}

  lemma {:induction false} RunOnTheWay(s0: nat, ps: seq<Step>, ys: seq<System>, n: nat)
    requires Run(s0, ps, ys) && n < |ys|
    ensures Inv(ys[n]) && OnTheWay(ys[n])
  {
    RunInv(s0, ps, ys, n);
    if n > 0 {
      RunOnTheWay(s0, ps, ys, n - 1);
      NextOnTheWay(ys[n - 1], ps[n - 1]);
    }
  }

  /** From any state in which the client disconnects: once its DISCONNECT and then the answer to it are
      delivered, `rpc_disconnect` returns, the client's record is gone with the next scan, and so is the
      server's. */
  lemma DisconnectCloses(s0: nat, ps: seq<Step>, ys: seq<System>, n: nat) returns (i: nat, z: System)
    requires Run(s0, ps, ys) && n < |ys| && ys[n].cpc == Disconnecting && ys[n].clLive
    ensures var y := ys[n];
      && i < |y.c2s| && y.c2s[i] == Msg(DISCONNECT, y.cl.seqno, 1, 1, 0, [])
      && Enabled(y, ToServer(i)) && var y1 := Next(y, ToServer(i));
      && Enabled(y1, ToClient(|y.s2c|)) && var y2 := Next(y1, ToClient(|y.s2c|));
      && Enabled(y2, DisconnectDone) && var y3 := Next(y2, DisconnectDone);
      && z == Next(Next(y3, ClientTimer), ServerTimer)
      && z.cpc == Closed && !z.clLive && !z.svLive
  {
    RunOnTheWay(s0, ps, ys, n);
    var y := ys[n];
    i :| 0 <= i < |y.c2s| && y.c2s[i] == Control(DISCONNECT, y.cl.seqno, 1, 1);
    z := Ended(y, i);
  }

  lemma Ended(y: System, i: nat) returns (z: System)
    requires y.cpc == Disconnecting && y.clLive && i < |y.c2s| && y.c2s[i] == Control(DISCONNECT, y.cl.seqno, 1, 1)
    ensures Enabled(y, ToServer(i)) && var y1 := Next(y, ToServer(i));
      && Enabled(y1, ToClient(|y.s2c|)) && var y2 := Next(y1, ToClient(|y.s2c|));
      && Enabled(y2, DisconnectDone) && var y3 := Next(y2, DisconnectDone);
      && z == Next(Next(y3, ClientTimer), ServerTimer)
      && z.cpc == Closed && !z.clLive && !z.svLive
  {
    var y1 := Next(y, ToServer(i));
    assert y1.s2c[|y.s2c|] == Control(DACK, y.cl.seqno, 1, 1) && y1.cl == y.cl && (y1.svLive ==> y1.sv.state == TIMEDOUT);
    var y2 := Next(y1, ToClient(|y.s2c|));
    assert y2.cl.state == TIMEDOUT && y2.sv == y1.sv;
    z := Next(Next(Next(y2, DisconnectDone), ClientTimer), ServerTimer);
  }
}
