/** What each record keeps to send again, in every state of every run. */
module SrpcPayloads {
  import opened Options
  import opened Octets
  import opened Guards
  import opened SrpcRecord
  import opened SrpcSystem
  import opened SrpcSafety

  /** The last packet of a query or a response. */
  function Final(cmd: Command, s: nat, q: seq<byte>): Msg
    requires |q| > 0
  {
    Piece(cmd, s, q, NFrags(|q|))
  }

  ghost predicate ClientHolds(cpc: ClientPc, cl: Rec, h: History) {
    match cl.state
    case CONNECT_SENT => cl.pl == Some(Control(CONNECT, h.s0, 1, 1)) && cpc == Connecting
    case FRAGMENT_SENT =>
      && cpc.SendingQuery? && |cpc.query| > 0 && 1 <= cpc.fnum < NFrags(|cpc.query|) && cl.lastFrag == cpc.fnum
      && cl.pl == Some(Piece(QUERY, cl.seqno, cpc.query, cpc.fnum))
    case QUERY_SENT => cl.seqno in h.calls && |h.calls[cl.seqno]| > 0 && cl.pl == Some(Final(QUERY, cl.seqno, h.calls[cl.seqno]))
    case DISCONNECT_SENT => cl.pl == Some(Control(DISCONNECT, cl.seqno, 1, 1))
    case FACK_SENT =>
      cl.seqno in h.resps && |h.resps[cl.seqno]| > 0 && cl.pl == Some(Control(FACK, cl.seqno, cl.lastFrag, NFrags(|h.resps[cl.seqno]|)))
    case _ => true
  }

  ghost predicate ServerHolds(spc: ServerPc, sv: Rec, born: bool, h: History) {
    && (sv.seqno in h.done ==> sv.seqno in h.resps && |h.resps[sv.seqno]| > 0 && sv.pl == Some(Final(RESPONSE, sv.seqno, h.resps[sv.seqno])))
    && match sv.state
       case FRAGMENT_SENT =>
         && spc.SendingResponse? && |spc.response| > 0 && 1 <= spc.fnum < NFrags(|spc.response|) && sv.lastFrag == spc.fnum
         && sv.pl == Some(Piece(RESPONSE, sv.seqno, spc.response, spc.fnum))
       case RESPONSE_SENT => sv.seqno in h.done
       case IDLE => sv.seqno in h.done || (born && sv.seqno == h.s0 && sv.pl == Some(Control(CACK, h.s0, 1, 1)))
       case QACK_SENT =>
         && sv.seqno in h.calls && |h.calls[sv.seqno]| > 0
         && sv.pl == Some(Control(QACK, sv.seqno, NFrags(|h.calls[sv.seqno]|), NFrags(|h.calls[sv.seqno]|)))
       case FACK_SENT =>
         && sv.seqno in h.calls && |h.calls[sv.seqno]| > 0
         && sv.pl == Some(Control(FACK, sv.seqno, sv.lastFrag, NFrags(|h.calls[sv.seqno]|)))
       case _ => true
  }

  ghost predicate Holds(y: System) {
    ClientHolds(y.cpc, y.cl, y.h) && ServerHolds(y.spc, y.sv, y.svBorn, y.h)
  }

  // ----- the client -----------------------------------------------------------------------------

  lemma QueryPieceHolds(y: System, q: seq<byte>, f: nat)
    requires |q| > 0 && 1 <= f <= NFrags(|q|) && y.cl.seqno in y.h.calls && y.h.calls[y.cl.seqno] == q
    ensures var z := SendQueryPiece(y, q, f); ClientHolds(z.cpc, z.cl, z.h)
  {}

  function Called(y: System, q: seq<byte>): System {
    y.(cl := y.cl.(seqno := y.cl.seqno + 1), h := y.h.(calls := y.h.calls[y.cl.seqno + 1 := q]))
  }

  lemma CallStartIs(y: System, q: seq<byte>)
    requires y.clLive && y.cl.state == IDLE && |q| > 0
    ensures 1 <= NFrags(|q|) && DoCallStart(y, q) == SendQueryPiece(Called(y, q), q, 1)
  {
    NFragsBounds(|q|);
  }

  lemma PieceLeavesServer(y: System, q: seq<byte>, f: nat)
    requires |q| > 0 && 1 <= f <= NFrags(|q|)
    ensures var z := SendQueryPiece(y, q, f); z.spc == y.spc && z.sv == y.sv && z.svBorn == y.svBorn
  {}

  lemma CallStartHolds(y: System, q: seq<byte>)
    requires ClientHolds(y.cpc, y.cl, y.h) && CallStartOk(y, q)
    ensures var z := DoCallStart(y, q); ClientHolds(z.cpc, z.cl, z.h) && z.spc == y.spc && z.sv == y.sv && z.svBorn == y.svBorn
  {
    if y.clLive && y.cl.state == IDLE {
      CallStartIs(y, q);
      PieceLeavesServer(Called(y, q), q, 1);
      QueryPieceHolds(Called(y, q), q, 1);
    }
  }

  lemma CallNextIs(y: System, q: seq<byte>, f: nat)
    requires y.cpc == SendingQuery(q, f) && y.cl.state == FACK_RECEIVED && |q| > 0 && f + 1 <= NFrags(|q|)
    ensures DoCallNext(y) == SendQueryPiece(y, q, f + 1)
  {}

  lemma QueryGoesOn(y: System, q: seq<byte>, f: nat)
    requires Inv(y) && y.cpc == SendingQuery(q, f) && y.cl.state == FACK_RECEIVED
    ensures |q| > 0 && f + 1 <= NFrags(|q|) && y.cl.seqno in y.h.calls && y.h.calls[y.cl.seqno] == q
  {
    NextPieceInHand(y);
  }

  lemma ClientMsgHolds(cpc: ClientPc, cl: Rec, h: History, m: Msg)
    requires HistoryOk(h) && ClientOk(cpc, cl, h) && ClientHolds(cpc, cl, h) && ServerSent(m, h)
    ensures ClientHolds(cpc, OnMsg(cl, m).rec, h)
  {
    if m.cmd == FRAGMENT {
      ClientFragmentHolds(cpc, cl, h, m);
    }
  }

  lemma ClientFragmentHolds(cpc: ClientPc, cl: Rec, h: History, m: Msg)
    requires HistoryOk(h) && ClientOk(cpc, cl, h) && ClientHolds(cpc, cl, h) && ServerSent(m, h) && m.cmd == FRAGMENT
    ensures ClientHolds(cpc, OnFragment(cl, m).rec, h)
  {
    assert Logged(h, m.seqno);
  }

  // ----- the server -----------------------------------------------------------------------------

  lemma ResponsePieceHolds(y: System, r: seq<byte>, f: nat)
    requires |r| > 0 && 1 <= f <= NFrags(|r|) && y.sv.seqno in y.h.resps && y.h.resps[y.sv.seqno] == r && y.sv.seqno !in y.h.done
    ensures var z := SendResponsePiece(y, r, f); ServerHolds(z.spc, z.sv, z.svBorn, z.h) && z.cpc == y.cpc && z.cl == y.cl
  {}

  lemma RespondStartHolds(y: System, r: seq<byte>)
    requires Inv(y) && Holds(y) && RespondStartOk(y, r)
    ensures var z := DoRespondStart(y, r); ServerHolds(z.spc, z.sv, z.svBorn, z.h) && z.cpc == y.cpc && z.cl == y.cl
  {
    if y.svLive && y.sv.state == QACK_SENT {
      NFragsBounds(|r|);
      ResponsePieceHolds(y.(h := y.h.(resps := y.h.resps[y.sv.seqno := r])), r, 1);
    }
  }

  lemma RespondNextIs(y: System, r: seq<byte>, f: nat)
    requires y.spc == SendingResponse(r, f) && y.sv.state == FACK_RECEIVED && |r| > 0 && f + 1 <= NFrags(|r|)
    ensures DoRespondNext(y) == SendResponsePiece(y, r, f + 1)
  {}

  lemma ResponseGoesOn(y: System, r: seq<byte>, f: nat)
    requires Inv(y) && y.spc == SendingResponse(r, f) && y.sv.state == FACK_RECEIVED
    ensures |r| > 0 && f + 1 <= NFrags(|r|) && y.sv.seqno in y.h.resps && y.h.resps[y.sv.seqno] == r && y.sv.seqno !in y.h.done
  {
    NextResponseInHand(y, r, f);
  }

  lemma NotDoneYet(h: History, s: nat)
    requires HistoryOk(h) && h.reach < s
    ensures s !in h.done
  {
    assert s in h.done ==> Logged(h, s);
  }

  lemma ServerQueryHolds(spc: ServerPc, sv: Rec, h: History, m: Msg)
    requires HistoryOk(h) && ServerOk(spc, sv, true, true, h) && ServerHolds(spc, sv, true, h) && ClientSent(m, h) && m.cmd == QUERY
    ensures ServerHolds(spc, OnQuery(sv, m).rec, true, h)
  {
    if m.seqno == sv.seqno + 1 { NotDoneYet(h, m.seqno); }
    assert sv.seqno in h.done ==> Logged(h, sv.seqno);
  }

  lemma ServerFragmentHolds(spc: ServerPc, sv: Rec, h: History, m: Msg)
    requires HistoryOk(h) && ServerOk(spc, sv, true, true, h) && ServerHolds(spc, sv, true, h) && ClientSent(m, h) && m.cmd == FRAGMENT
    ensures ServerHolds(spc, OnFragment(sv, m).rec, true, h)
  {
    if m.seqno == sv.seqno + 1 { NotDoneYet(h, m.seqno); }
    assert sv.seqno in h.done ==> Logged(h, sv.seqno);
  }

  lemma ServerMsgHolds(spc: ServerPc, sv: Rec, h: History, m: Msg)
    requires HistoryOk(h) && ServerOk(spc, sv, true, true, h) && ServerHolds(spc, sv, true, h) && ClientSent(m, h)
    ensures ServerHolds(spc, OnMsg(sv, m).rec, true, h)
  {
    match m.cmd
    case QUERY => ServerQueryHolds(spc, sv, h, m);
    case FRAGMENT => ServerFragmentHolds(spc, sv, h, m);
    case _ => ServerControlHolds(spc, sv, h, m);
  }

  lemma ServerControlHolds(spc: ServerPc, sv: Rec, h: History, m: Msg)
    requires HistoryOk(h) && ServerOk(spc, sv, true, true, h) && ServerHolds(spc, sv, true, h) && ClientSent(m, h)
    requires m.cmd != QUERY && m.cmd != FRAGMENT
    ensures ServerHolds(spc, OnMsg(sv, m).rec, true, h)
  {}

  /** The history after a packet to the server differs in what does not matter here. */
  lemma ToServerHolds(y: System, i: nat)
    requires Inv(y) && Holds(y) && ToServerOk(y, i)
    ensures Holds(DoToServer(y, i))
  {
    var m := y.c2s[i];
    assert ClientSent(m, y.h);
    if y.svLive {
      ServerMsgHolds(y.spc, y.sv, y.h, m);
    }
  }

  lemma ToClientHolds(y: System, i: nat)
    requires Inv(y) && Holds(y) && i < |y.s2c|
    ensures Holds(DoToClient(y, i))
  {
    if y.clLive {
      ClientMsgHolds(y.cpc, y.cl, y.h, y.s2c[i]);
    }
  }

  // ----- the timers -----------------------------------------------------------------------------

  lemma ClientTimerHolds(y: System)
    requires Holds(y)
    ensures Holds(DoClientTimer(y))
  {
    if y.clLive { TimerEffect(y.cl); }
  }

  lemma ServerTimerHolds(y: System)
    requires Holds(y)
    ensures Holds(DoServerTimer(y))
  {
    if y.svLive { TimerEffect(y.sv); }
  }

  // ----- runs -----------------------------------------------------------------------------------

  ghost predicate HoldsHeld(y: System) {
    forall z {:trigger Open(z)} :: Open(z) ==> Holds(y)
  }

  /** Calls and responses that are added leave the other side alone. */
  lemma ServerHoldsGrows(spc: ServerPc, sv: Rec, born: bool, h: History, h': History)
    requires ServerHolds(spc, sv, born, h) && SubMap(h.calls, h'.calls) && h'.resps == h.resps && h'.done == h.done && h'.s0 == h.s0
    ensures ServerHolds(spc, sv, born, h')
  {}

  lemma ClientHoldsGrows(cpc: ClientPc, cl: Rec, h: History, h': History)
    requires ClientHolds(cpc, cl, h) && SubMap(h.resps, h'.resps) && h'.calls == h.calls && h'.s0 == h.s0
    ensures ClientHolds(cpc, cl, h')
  {}

  lemma CallStartStep(y: System, q: seq<byte>)
    requires Inv(y) && Holds(y) && CallStartOk(y, q)
    ensures HoldsHeld(DoCallStart(y, q))
  {
    CallStartHolds(y, q);
    CallStartBooks(y, q);
    ServerHoldsGrows(y.spc, y.sv, y.svBorn, y.h, DoCallStart(y, q).h);
  }

  lemma QueryPieceStep(y: System, q: seq<byte>, f: nat)
    requires Holds(y) && |q| > 0 && 1 <= f <= NFrags(|q|) && y.cl.seqno in y.h.calls && y.h.calls[y.cl.seqno] == q
    ensures HoldsHeld(SendQueryPiece(y, q, f))
  {
    QueryPieceHolds(y, q, f);
    ServerHoldsGrows(y.spc, y.sv, y.svBorn, y.h, SendQueryPiece(y, q, f).h);
  }

  lemma NextQueryStep(y: System, q: seq<byte>, f: nat)
    requires Holds(y) && y.cpc == SendingQuery(q, f) && y.cl.state == FACK_RECEIVED && |q| > 0 && f + 1 <= NFrags(|q|)
    requires y.cl.seqno in y.h.calls && y.h.calls[y.cl.seqno] == q
    ensures HoldsHeld(DoCallNext(y))
  {
    CallNextIs(y, q, f);
    QueryPieceStep(y, q, f + 1);
  }

  lemma CallNextStep(y: System)
    requires Inv(y) && Holds(y) && CallNextOk(y)
    ensures HoldsHeld(DoCallNext(y))
  {
    if y.cl.state == FACK_RECEIVED {
      QueryGoesOn(y, y.cpc.query, y.cpc.fnum);
      NextQueryStep(y, y.cpc.query, y.cpc.fnum);
    } else {
      CallGivesUp(y);
    }
  }

  lemma CallGivesUp(y: System)
    requires Holds(y) && y.cpc.SendingQuery? && y.cl.state == TIMEDOUT
    ensures HoldsHeld(DoCallNext(y))
  {}

  lemma CallStartBooks(y: System, q: seq<byte>)
    requires ClientOk(y.cpc, y.cl, y.h) && CallStartOk(y, q)
    ensures var z := DoCallStart(y, q); SubMap(y.h.calls, z.h.calls) && z.h.resps == y.h.resps && z.h.done == y.h.done && z.h.s0 == y.h.s0
  {}

  lemma RespondStartStep(y: System, r: seq<byte>)
    requires Inv(y) && Holds(y) && RespondStartOk(y, r)
    ensures HoldsHeld(DoRespondStart(y, r))
  {
    RespondStartHolds(y, r);
    RespondStartBooks(y, r);
    ClientHoldsGrows(y.cpc, y.cl, y.h, DoRespondStart(y, r).h);
  }

  lemma RespondStartBooks(y: System, r: seq<byte>)
    requires Inv(y) && RespondStartOk(y, r)
    ensures var z := DoRespondStart(y, r); SubMap(y.h.resps, z.h.resps) && z.h.calls == y.h.calls && z.h.s0 == y.h.s0
  {}

  lemma ResponsePieceStep(y: System, r: seq<byte>, f: nat)
    requires Holds(y) && |r| > 0 && 1 <= f <= NFrags(|r|) && y.sv.seqno in y.h.resps && y.h.resps[y.sv.seqno] == r && y.sv.seqno !in y.h.done
    ensures HoldsHeld(SendResponsePiece(y, r, f))
  {
    ResponsePieceHolds(y, r, f);
    ClientHoldsGrows(y.cpc, y.cl, y.h, SendResponsePiece(y, r, f).h);
  }

  lemma NextResponseStep(y: System, r: seq<byte>, f: nat)
    requires Holds(y) && y.spc == SendingResponse(r, f) && y.sv.state == FACK_RECEIVED && |r| > 0 && f + 1 <= NFrags(|r|)
    requires y.sv.seqno in y.h.resps && y.h.resps[y.sv.seqno] == r && y.sv.seqno !in y.h.done
    ensures HoldsHeld(DoRespondNext(y))
  {
    RespondNextIs(y, r, f);
    ResponsePieceStep(y, r, f + 1);
  }

  lemma RespondNextStep(y: System)
    requires Inv(y) && Holds(y) && RespondNextOk(y)
    ensures HoldsHeld(DoRespondNext(y))
  {
    if y.sv.state == FACK_RECEIVED {
      ResponseGoesOn(y, y.spc.response, y.spc.fnum);
      NextResponseStep(y, y.spc.response, y.spc.fnum);
    } else {
      WorkerGivesUp(y);
    }
  }

  lemma WorkerGivesUp(y: System)
    requires Holds(y) && y.spc.SendingResponse? && y.sv.state == TIMEDOUT
    ensures HoldsHeld(DoRespondNext(y))
  {}

  lemma ThreadStep(y: System, p: Step)
    requires Holds(y) && Enabled(y, p) && (p.ConnectDone? || p.CallFinish? || p.Disconnect? || p.DisconnectDone? || p.TakeQuery?)
    ensures HoldsHeld(Next(y, p))
  {}

  lemma NextHolds(y: System, p: Step)
    requires Inv(y) && Holds(y) && Enabled(y, p)
    ensures HoldsHeld(Next(y, p))
  {
    match p
    case CallStart(q) => CallStartStep(y, q);
    case CallNext => CallNextStep(y);
    case RespondStart(r) => RespondStartStep(y, r);
    case RespondNext => RespondNextStep(y);
    case ToServer(i) => ToServerHolds(y, i);
    case ToClient(i) => ToClientHolds(y, i);
    case ClientTimer => ClientTimerHolds(y);
    case ServerTimer => ServerTimerHolds(y);
    case _ => ThreadStep(y, p);
  }

  lemma {:induction false} RunHolds(s0: nat, ps: seq<Step>, ys: seq<System>, n: nat)
    requires Run(s0, ps, ys) && n < |ys|
    ensures Inv(ys[n]) && Holds(ys[n])
  {
    RunInv(s0, ps, ys, n);
    if n > 0 {
      RunHolds(s0, ps, ys, n - 1);
      NextHolds(ys[n - 1], ps[n - 1]);
      assert Open(0);
    }
  }
}
