/** What is sent, when, and in answer to what: repetitions by the timer, answers of the reader. */
module SrpcAnswers {
  import opened Options
  import opened Octets
  import opened Guards
  import opened SrpcRecord
  import opened SrpcSystem
  import opened SrpcSafety
  import opened SrpcPayloads

  // ----- repetitions ----------------------------------------------------------------------------

  /** What a waiting client sends again: its CONNECT, the fragment that waits for its FACK, the end of
      its query, or its DISCONNECT. */
  ghost predicate ClientRepeat(y: System, m: Msg) {
    var s := y.cl.seqno;
    match y.cl.state
    case CONNECT_SENT => m == Msg(CONNECT, y.h.s0, 1, 1, 0, [])
    case FRAGMENT_SENT =>
      && s in y.h.calls
      && var q, f := y.h.calls[s], y.cl.lastFrag;
         && 1 <= f && 1024 * f < |q|
         && m == Msg(FRAGMENT, s, f, (|q| - 1) / 1024 + 1, |q|, q[1024 * (f - 1)..1024 * f])
    case QUERY_SENT =>
      && s in y.h.calls
      && var q := y.h.calls[s];
         && |q| > 0 && 1024 * ((|q| - 1) / 1024) < |q|
         && m == Msg(QUERY, s, (|q| - 1) / 1024 + 1, (|q| - 1) / 1024 + 1, |q|, q[1024 * ((|q| - 1) / 1024)..])
    case DISCONNECT_SENT => m == Msg(DISCONNECT, s, 1, 1, 0, [])
    case _ => false
  }

  /** What a waiting server sends again: a fragment of its response, or the end of it. */
  ghost predicate ServerRepeat(y: System, m: Msg) {
    var s := y.sv.seqno;
    && s in y.h.resps
    && var r, f := y.h.resps[s], y.sv.lastFrag;
       match y.sv.state
       case FRAGMENT_SENT =>
         && 1 <= f && 1024 * f < |r|
         && m == Msg(FRAGMENT, s, f, (|r| - 1) / 1024 + 1, |r|, r[1024 * (f - 1)..1024 * f])
       case RESPONSE_SENT =>
         && |r| > 0 && 1024 * ((|r| - 1) / 1024) < |r|
         && m == Msg(RESPONSE, s, (|r| - 1) / 1024 + 1, (|r| - 1) / 1024 + 1, |r|, r[1024 * ((|r| - 1) / 1024)..])
       case _ => false
  }

  lemma MiddlePiece(final: Command, s: nat, q: seq<byte>, f: nat)
    requires |q| > 0 && 1 <= f < NFrags(|q|)
    ensures 1024 * f < |q| && Piece(final, s, q, f) == Msg(FRAGMENT, s, f, (|q| - 1) / 1024 + 1, |q|, q[1024 * (f - 1)..1024 * f])
  {
    NFragsBounds(|q|);
  }

  lemma LastPiece(final: Command, s: nat, q: seq<byte>)
    requires |q| > 0
    ensures 1024 * ((|q| - 1) / 1024) < |q|
    ensures Final(final, s, q) == Msg(final, s, (|q| - 1) / 1024 + 1, (|q| - 1) / 1024 + 1, |q|, q[1024 * ((|q| - 1) / 1024)..])
  {
    NFragsBounds(|q|);
  }

  lemma FragmentKept(y: System)
    requires Inv(y) && Holds(y) && y.cl.state == FRAGMENT_SENT
    ensures y.cl.pl.Some? && ClientRepeat(y, y.cl.pl.value)
  {
    MiddlePiece(QUERY, y.cl.seqno, y.cpc.query, y.cpc.fnum);
  }

  lemma QueryKept(y: System)
    requires Inv(y) && Holds(y) && y.cl.state == QUERY_SENT
    ensures y.cl.pl.Some? && ClientRepeat(y, y.cl.pl.value)
  {
    LastPiece(QUERY, y.cl.seqno, y.h.calls[y.cl.seqno]);
  }

  lemma ControlKept(y: System)
    requires Inv(y) && Holds(y) && (y.cl.state == CONNECT_SENT || y.cl.state == DISCONNECT_SENT)
    ensures y.cl.pl.Some? && ClientRepeat(y, y.cl.pl.value)
  {}

  /** In every state of every run: a waiting client keeps exactly that packet. */
  lemma ClientKeeps(s0: nat, ps: seq<Step>, ys: seq<System>, n: nat)
    requires Run(s0, ps, ys) && n < |ys| && Sending(ys[n].cl.state)
    ensures ys[n].cl.pl.Some? && ClientRepeat(ys[n], ys[n].cl.pl.value)
  {
    RunHolds(s0, ps, ys, n);
    ClientKept(ys[n]);
  }

  lemma ClientKept(y: System)
    requires Inv(y) && Holds(y) && Sending(y.cl.state)
    ensures y.cl.pl.Some? && ClientRepeat(y, y.cl.pl.value)
  {
    if y.cl.state == FRAGMENT_SENT {
      FragmentKept(y);
    } else if y.cl.state == QUERY_SENT {
      QueryKept(y);
    } else {
      ControlKept(y);
    }
  }

  lemma ServerKeeps(s0: nat, ps: seq<Step>, ys: seq<System>, n: nat)
    requires Run(s0, ps, ys) && n < |ys| && Sending(ys[n].sv.state)
    ensures ys[n].sv.pl.Some? && ServerRepeat(ys[n], ys[n].sv.pl.value)
  {
    RunHolds(s0, ps, ys, n);
    ServerKept(ys[n]);
  }

  lemma ServerKept(y: System)
    requires Inv(y) && Holds(y) && Sending(y.sv.state)
    ensures y.sv.pl.Some? && ServerRepeat(y, y.sv.pl.value)
  {
    if y.sv.state == FRAGMENT_SENT {
      ResponseFragmentKept(y);
    } else {
      ResponseKept(y);
    }
  }

  lemma ResponseFragmentKept(y: System)
    requires Inv(y) && Holds(y) && y.sv.state == FRAGMENT_SENT
    ensures y.sv.pl.Some? && ServerRepeat(y, y.sv.pl.value)
  {
    ResponsePieceRepeats(y);
  }

  lemma ResponsePieceRepeats(y: System)
    requires ServerThreadOk(y.spc, y.sv, y.h) && ServerHolds(y.spc, y.sv, y.svBorn, y.h) && y.sv.state == FRAGMENT_SENT
    ensures y.sv.pl.Some? && ServerRepeat(y, y.sv.pl.value)
  {
    MiddlePiece(RESPONSE, y.sv.seqno, y.spc.response, y.spc.fnum);
  }

  lemma ResponseKept(y: System)
    requires Inv(y) && Holds(y) && y.sv.state == RESPONSE_SENT
    ensures y.sv.pl.Some? && ServerRepeat(y, y.sv.pl.value)
  {
    LastPiece(RESPONSE, y.sv.seqno, y.h.resps[y.sv.seqno]);
  }

  /** A scan with the verdict RETRY sends exactly that packet. */
  lemma ClientRetransmits(s0: nat, ps: seq<Step>, ys: seq<System>, n: nat)
    requires Run(s0, ps, ys) && n < |ys| && ys[n].clLive && Scan(ys[n].cl).1 == RETRY
    ensures var z := Next(ys[n], ClientTimer);
      exists m :: ClientRepeat(ys[n], m) && z.c2s == ys[n].c2s + [m] && z.s2c == ys[n].s2c && z.h == ys[n].h && z.clLive
  {
    ClientKeeps(s0, ps, ys, n);
    assert ClientRepeat(ys[n], ys[n].cl.pl.value);
  }

  lemma ServerRetransmits(s0: nat, ps: seq<Step>, ys: seq<System>, n: nat)
    requires Run(s0, ps, ys) && n < |ys| && ys[n].svLive && Scan(ys[n].sv).1 == RETRY
    ensures var z := Next(ys[n], ServerTimer);
      exists m :: ServerRepeat(ys[n], m) && z.s2c == ys[n].s2c + [m] && z.c2s == ys[n].c2s && z.h == ys[n].h && z.svLive
  {
    ServerKeeps(s0, ps, ys, n);
    assert ServerRepeat(ys[n], ys[n].sv.pl.value);
  }

  /** Any other scan sends nothing, or one PING. */
  lemma OtherScans(y: System)
    ensures Scan(y.cl).1 != RETRY ==>
      Next(y, ClientTimer).c2s == y.c2s + if y.clLive && Scan(y.cl).1 == PINGED then [Msg(PING, y.cl.seqno, 1, 1, 0, [])] else []
    ensures Scan(y.sv).1 != RETRY ==>
      Next(y, ServerTimer).s2c == y.s2c + if y.svLive && Scan(y.sv).1 == PINGED then [Msg(PING, y.sv.seqno, 1, 1, 0, [])] else []
  {}

  // ----- packets that come twice ----------------------------------------------------------------

  /** A QUERY for the sequence number that the server is at, when it is not the end of one that is being
      put together: it queues nothing. While the worker has not answered, it is answered by the QACK
      again; once the response is out, by the end of the response; and otherwise not at all. */
  ghost predicate QueryAnswer(y: System, m: Msg, z: System) {
    match y.sv.state
    case QACK_SENT => z == y.(sv := z.sv, s2c := y.s2c + [Msg(QACK, m.seqno, m.fnum, m.nfrags, 0, [])])
    case RESPONSE_SENT => y.sv.pl.Some? && ServerRepeat(y, y.sv.pl.value) && z == y.(sv := z.sv, s2c := y.s2c + [y.sv.pl.value])
    case _ => z == y
  }

  lemma RepeatedQuery(s0: nat, ps: seq<Step>, ys: seq<System>, n: nat, i: nat)
    requires Run(s0, ps, ys) && n < |ys| && ys[n].svLive && i < |ys[n].c2s|
    requires ys[n].c2s[i].cmd == QUERY && ys[n].c2s[i].seqno == ys[n].sv.seqno && ys[n].sv.state != FACK_SENT
    ensures QueryAnswer(ys[n], ys[n].c2s[i], Next(ys[n], ToServer(i)))
    ensures Next(ys[n], ToServer(i)).sv.state == ys[n].sv.state
  {
    RunHolds(s0, ps, ys, n);
    QueryAnswered(ys[n], i);
  }

  lemma QueryAnswered(y: System, i: nat)
    requires Inv(y) && Holds(y) && y.svLive && i < |y.c2s|
    requires y.c2s[i].cmd == QUERY && y.c2s[i].seqno == y.sv.seqno && y.sv.state != FACK_SENT
    ensures QueryAnswer(y, y.c2s[i], DoToServer(y, i)) && DoToServer(y, i).sv.state == y.sv.state
  {
    assert ClientSent(y.c2s[i], y.h);
    RepeatIs(y.sv, y.c2s[i]);
    if y.sv.state == RESPONSE_SENT {
      ServerKept(y);
    }
  }

  lemma RepeatIs(r: Rec, m: Msg)
    requires m.cmd == QUERY && m.seqno == r.seqno && r.state != FACK_SENT
    ensures var o := OnMsg(r, m);
      && o.enq == [] && o.rec.state == r.state && o.rec.seqno == r.seqno
      && (r.state == QACK_SENT || r.state == RESPONSE_SENT ==> o.send == Payload(r))
      && (r.state != QACK_SENT && r.state != RESPONSE_SENT ==> o == Keep(r))
  {}

  /** The fragment taken last, once more: it is answered by its FACK again and changes nothing. */
  lemma RepeatedFragment(s0: nat, ps: seq<Step>, ys: seq<System>, n: nat, i: nat)
    requires Run(s0, ps, ys) && n < |ys| && ys[n].svLive && i < |ys[n].c2s|
    requires ys[n].c2s[i].cmd == FRAGMENT && ys[n].c2s[i].seqno == ys[n].sv.seqno
    requires ys[n].sv.state == FACK_SENT && ys[n].c2s[i].fnum == ys[n].sv.lastFrag
    ensures var y, m, z := ys[n], ys[n].c2s[i], Next(ys[n], ToServer(i));
      z == y.(sv := z.sv, s2c := y.s2c + [Msg(FACK, m.seqno, m.fnum, m.nfrags, 0, [])]) && z.sv == SetState(y.sv, FACK_SENT)
  {
    RunHolds(s0, ps, ys, n);
    assert ClientSent(ys[n].c2s[i], ys[n].h);
  }

  lemma RepeatedResponseFragment(s0: nat, ps: seq<Step>, ys: seq<System>, n: nat, i: nat)
    requires Run(s0, ps, ys) && n < |ys| && ys[n].clLive && i < |ys[n].s2c|
    requires ys[n].s2c[i].cmd == FRAGMENT && ys[n].s2c[i].seqno == ys[n].cl.seqno
    requires ys[n].cl.state == FACK_SENT && ys[n].s2c[i].fnum == ys[n].cl.lastFrag
    ensures var y, m, z := ys[n], ys[n].s2c[i], Next(ys[n], ToClient(i));
      z == y.(cl := z.cl, last := i, c2s := y.c2s + [Msg(FACK, m.seqno, m.fnum, m.nfrags, 0, [])]) && z.cl == SetState(y.cl, FACK_SENT)
  {
    RunHolds(s0, ps, ys, n);
    assert ServerSent(ys[n].s2c[i], ys[n].h);
  }

  /** A CONNECT for a connection that is idle: answered by the CACK again before the first query was
      answered, by the end of the last response after that. In any other state it is not answered. */
  ghost predicate ConnectAnswer(y: System, m: Msg, z: System) {
    if y.sv.state != IDLE then z == y
    else if y.sv.seqno !in y.h.done then z == y.(sv := SetState(y.sv, IDLE), s2c := y.s2c + [Msg(CACK, m.seqno, 1, 1, 0, [])])
    else
      && y.sv.pl.Some? && y.sv.pl.value.cmd == RESPONSE && y.sv.pl.value.seqno == y.sv.seqno
      && z == y.(sv := SetState(y.sv, IDLE), s2c := y.s2c + [y.sv.pl.value])
  }

  lemma RepeatedConnect(s0: nat, ps: seq<Step>, ys: seq<System>, n: nat, i: nat)
    requires Run(s0, ps, ys) && n < |ys| && ys[n].svLive && i < |ys[n].c2s| && ys[n].c2s[i].cmd == CONNECT
    ensures ConnectAnswer(ys[n], ys[n].c2s[i], Next(ys[n], ToServer(i)))
  {
    RunHolds(s0, ps, ys, n);
    assert ClientSent(ys[n].c2s[i], ys[n].h);
  }

  /** A RESPONSE for the client's call is answered by a RACK exactly if the client still waits for it, or
      puts it together and this is the end. Once it was taken it is not answered any more: a server whose
      RACK was lost goes on repeating until the next query, or until it gives up. */
  lemma ResponseAnsweredIff(s0: nat, ps: seq<Step>, ys: seq<System>, n: nat, i: nat)
    requires Run(s0, ps, ys) && n < |ys| && ys[n].clLive && i < |ys[n].s2c|
    requires ys[n].s2c[i].cmd == RESPONSE && ys[n].s2c[i].seqno == ys[n].cl.seqno
    ensures var y, m, z := ys[n], ys[n].s2c[i], Next(ys[n], ToClient(i));
      var waits := y.cl.state == QUERY_SENT || y.cl.state == AWAITING_RESPONSE || (y.cl.state == FACK_SENT && m.fnum == y.cl.lastFrag + 1);
      && (waits ==> z.c2s == y.c2s + [Msg(RACK, m.seqno, m.fnum, m.nfrags, 0, [])] && z.cl.state == IDLE)
      && (!waits ==> z == y.(last := i))
  {
    RunInv(s0, ps, ys, n);
    assert ServerSent(ys[n].s2c[i], ys[n].h);
  }

  // ----- starting over --------------------------------------------------------------------------

  /** A client whose sequence numbers are used up sends SEQNO. A server that is not in a call takes the number
      and answers with a SACK, the first time and every time after; that ends the client's wait. In any other
      state it does not answer. */
  lemma SeqnoTaken(cl: Rec, sv: Rec, m: Msg)
    requires cl.state == SEQNO_SENT && m == Msg(SEQNO, cl.seqno, 1, 1, 0, [])
    ensures var o := OnMsg(sv, m);
      if sv.state == IDLE || sv.state == RESPONSE_SENT then
        && o.rec.seqno == cl.seqno && o.rec.state == IDLE && o.send == [Msg(SACK, cl.seqno, 1, 1, 0, [])] && o.enq == []
        && OnMsg(o.rec, m) == o
        && OnMsg(cl, o.send[0]) == Out(SetState(cl, IDLE), [], [])
      else o == Keep(sv)
  {}

  // ----- the end of waiting ---------------------------------------------------------------------

  /** The RACK of its response ends a server's repetitions: it is idle, and scans send pings only. */
  lemma RackEnds(s0: nat, ps: seq<Step>, ys: seq<System>, n: nat, i: nat)
    requires Run(s0, ps, ys) && n < |ys| && ys[n].svLive && i < |ys[n].c2s|
    requires ys[n].c2s[i].cmd == RACK && ys[n].c2s[i].seqno == ys[n].sv.seqno
    ensures var y, z := ys[n], Next(ys[n], ToServer(i));
      z == y.(sv := SetState(y.sv, IDLE)) && Scan(z.sv).1 != RETRY
  {
    RunInv(s0, ps, ys, n);
  }

  /** A scan that gives a record up makes it TIMEDOUT and sends nothing; the next one removes it. */
  lemma GivenUp(r: Rec)
    requires Scan(r).1 == TIMED
    ensures var (o, stays) := Timer(r); stays && o.rec.state == TIMEDOUT && o.send == [] && Timer(o.rec) == (Keep(o.rec), false)
  {}

  /** Whoever waits for a record that was given up is told so, and nothing more is sent. */
  lemma WaitsEnd(y: System)
    ensures y.cl.state == TIMEDOUT && y.cpc == Connecting ==>
      Enabled(y, ConnectDone) && Next(y, ConnectDone) == y.(cpc := Closed, clLive := false)
    ensures y.cl.state == TIMEDOUT && y.cpc.SendingQuery? ==> Enabled(y, CallNext) && Next(y, CallNext) == y.(cpc := Ready)
    ensures y.cl.state == TIMEDOUT && y.cpc == WaitingResponse ==>
      forall size :: Enabled(y, CallFinish(size)) && Next(y, CallFinish(size)) == y.(cpc := Ready, cl := y.cl.(resp := None))
    ensures y.cl.state == TIMEDOUT && y.cpc == Disconnecting ==> Enabled(y, DisconnectDone) && Next(y, DisconnectDone) == y.(cpc := Closed)
    ensures y.sv.state == TIMEDOUT && y.spc.SendingResponse? ==> Enabled(y, RespondNext) && Next(y, RespondNext) == y.(spc := Free)
  {}
}
