/** What a user of SRPC can rely on, over whole runs. */
module SrpcTheorems {
  import opened SrpcRecord
  import opened SrpcSystem
  import opened SrpcSafety
  import opened SrpcOrder
  import opened Options
  import opened Octets

  /** Over every run: each sequence number reaches the service queue at most once and in strictly
      increasing order, and the queued bytes are those given to `rpc_call` for that number,
      whether they travelled in one packet or in many. */
  lemma QueriesOnceInOrder(s0: nat, ps: seq<Step>, ys: seq<System>, n: nat)
    requires Run(s0, ps, ys) && n < |ys|
    ensures var h := ys[n].h;
      && (forall i, j :: 0 <= i < j < |h.log| ==> h.log[i].seqno < h.log[j].seqno)
      && (forall i :: 0 <= i < |h.log| ==>
            h.log[i].seqno in h.calls && h.log[i].buf == Buf(|h.calls[h.log[i].seqno]|, h.calls[h.log[i].seqno]))
  {
    RunInv(s0, ps, ys, n);
  }

  lemma CallStartGrows(y: System, q: seq<byte>)
    requires Inv(y) && CallStartOk(y, q)
    ensures Grows(y.h, DoCallStart(y, q).h)
  {}

  lemma CallNextGrows(y: System)
    requires CallNextOk(y)
    ensures Grows(y.h, DoCallNext(y).h)
  {}

  lemma RespondStartGrows(y: System, r: seq<byte>)
    requires Inv(y) && RespondStartOk(y, r)
    ensures Grows(y.h, DoRespondStart(y, r).h)
  {}

  lemma RespondNextGrows(y: System)
    requires RespondNextOk(y)
    ensures Grows(y.h, DoRespondNext(y).h)
  {}

  lemma ToServerGrows(y: System, i: nat)
    requires Inv(y) && ToServerOk(y, i)
    ensures Grows(y.h, DoToServer(y, i).h)
  {
    if y.svLive { ServerTakes(y.spc, y.sv, y.h, y.c2s[i]); }
  }

  /** The history is not rewritten: what was called, queued or answered stays as it was. */
  lemma NextGrows(y: System, p: Step)
    requires Inv(y) && Enabled(y, p)
    ensures Grows(y.h, Next(y, p).h)
  {
    match p
    case CallStart(q) => CallStartGrows(y, q);
    case CallNext => CallNextGrows(y);
    case RespondStart(r) => RespondStartGrows(y, r);
    case RespondNext => RespondNextGrows(y);
    case ToServer(i) => ToServerGrows(y, i);
    case _ => OtherGrows(y, p);
  }

  lemma OtherGrows(y: System, p: Step)
    requires Enabled(y, p) && !p.CallStart? && !p.CallNext? && !p.RespondStart? && !p.RespondNext? && !p.ToServer?
    ensures Grows(y.h, Next(y, p).h)
  {
    var h' := Next(y, p).h;
    assert h' == y.h.(replies := h'.replies);
  }

  lemma OneStepGrows(s0: nat, ps: seq<Step>, ys: seq<System>, j: nat)
    requires Run(s0, ps, ys) && j < |ps|
    ensures Grows(ys[j].h, ys[j + 1].h)
  {
    RunInv(s0, ps, ys, j);
    NextGrows(ys[j], ps[j]);
  }

  lemma GrowsTwice(h: History, h1: History, h2: History)
    requires Grows(h, h1) && Grows(h1, h2)
    ensures Grows(h, h2)
  {}

  ghost predicate GrowsAt(hs: seq<History>, k: nat) {
    k + 1 < |hs| && Grows(hs[k], hs[k + 1])
  }

  lemma {:induction false} GrowsAlong(hs: seq<History>, i: nat, j: nat)
    requires i <= j < |hs| && forall k :: i <= k < j ==> GrowsAt(hs, k)
    ensures Grows(hs[i], hs[j])
    decreases j
  {
    if i < j {
      GrowsAlong(hs, i, j - 1);
      assert GrowsAt(hs, j - 1);
      GrowsTwice(hs[i], hs[j - 1], hs[j]);
    }
  }

  lemma HistoryGrows(s0: nat, ps: seq<Step>, ys: seq<System>, i: nat, j: nat)
    requires Run(s0, ps, ys) && i <= j < |ys|
    ensures Grows(ys[i].h, ys[j].h)
  {
    var hs := seq(|ys|, k requires 0 <= k < |ys| => ys[k].h);
    forall k | i <= k < j
      ensures GrowsAt(hs, k)
    {
      OneStepGrows(s0, ps, ys, k);
    }
    GrowsAlong(hs, i, j);
  }

  /** Over every run in which the server's packets do not overtake each other: whenever `rpc_call`
      returns 1, the bytes handed back are those passed to `rpc_response` for that call. */
  lemma RepliesExactInOrder(s0: nat, ps: seq<Step>, ys: seq<System>, n: nat, i: nat)
    requires Run(s0, ps, ys) && InOrder(ps, ys) && n < |ys| && i < |ys[n].h.replies|
    ensures var h := ys[n].h; var s := h.replies[i].seqno;
      s in h.calls && s in h.resps && h.replies[i].buf == Buf(|h.resps[s]|, h.resps[s])
  {
    RunOrder(s0, ps, ys, n);
    assert Logged(ys[n].h, ys[n].h.replies[i].seqno);
  }

  // ----- the copies out of the buffers ----------------------------------------------------------

  /** The first bytes of the memory behind a payload. */
  function Behind(n: nat, beyond: nat -> byte): seq<byte> {
    seq(n, i requires 0 <= i => beyond(i))
  }

  /** A copy that goes past the payload: its bytes, then those behind it. */
  lemma CopyBeyond(b: Buf, beyond: nat -> byte)
    requires |b.data| <= b.tlen
    ensures Copied(b, beyond) == b.data + Behind(b.tlen - |b.data|, beyond)
  {
    var c, d := Copied(b, beyond), b.data + Behind(b.tlen - |b.data|, beyond);
    forall i | 0 <= i < b.tlen
      ensures c[i] == d[i]
    {}
  }

  /** Copying the payload out stays within it exactly if the payload is the response; then the
      copy is the response, and otherwise all but the last fragment's bytes are read from
      whatever memory follows. */
  lemma CopyOut(b: Buf, r: seq<byte>)
    requires ReplyOk(b, r) && |r| > 0
    ensures b.tlen == |r| && (b.tlen <= |b.data| <==> b == Buf(|r|, r))
    ensures b == Buf(|r|, r) ==> forall beyond :: Copied(b, beyond) == r
    ensures b != Buf(|r|, r) ==>
      var over := FR_SIZE * (NFrags(|r|) - 1);
      && b.data == r[over..] && b.tlen == |b.data| + over && over >= FR_SIZE
      && forall beyond :: Copied(b, beyond) == r[over..] + Behind(over, beyond)
  {
    NFragsBounds(|r|);
    if b == Buf(|r|, r) {
      forall beyond
        ensures Copied(b, beyond) == r
      {}
    } else {
      var over := FR_SIZE * (NFrags(|r|) - 1);
      assert b.data == r[over..];
      forall beyond
        ensures Copied(b, beyond) == r[over..] + Behind(over, beyond)
      {
        CopyBeyond(b, beyond);
      }
    }
  }

  /** Over every run, when a call wakes to its response: the copy stays within the payload exactly
      if the payload is the response. */
  lemma FinishOnAnyNetwork(s0: nat, ps: seq<Step>, ys: seq<System>, n: nat)
    requires Run(s0, ps, ys) && n < |ys| && CallFinishOk(ys[n]) && ys[n].cl.state == IDLE
    ensures ys[n].cl.resp.Some? && ys[n].cl.seqno in ys[n].h.resps
    ensures var b := ys[n].cl.resp.value; var r := ys[n].h.resps[ys[n].cl.seqno];
      b.tlen == |r| && (b.tlen <= |b.data| <==> b == Buf(|r|, r))
  {
    RunInv(s0, ps, ys, n);
    CopyOut(ys[n].cl.resp.value, ys[n].h.resps[ys[n].cl.seqno]);
  }

  /** Over every run without overtaking, it does. */
  lemma FinishInBounds(s0: nat, ps: seq<Step>, ys: seq<System>, n: nat)
    requires Run(s0, ps, ys) && InOrder(ps, ys) && n < |ys| && CallFinishOk(ys[n]) && ys[n].cl.state == IDLE
    ensures ys[n].cl.resp.Some? && ys[n].cl.resp.value.tlen == |ys[n].cl.resp.value.data|
  {
    RunOrder(s0, ps, ys, n);
  }

  /** Over every run, what a worker copies off the service queue is the query. */
  lemma QueryCopies(s0: nat, ps: seq<Step>, ys: seq<System>, n: nat, i: nat, beyond: nat -> byte)
    requires Run(s0, ps, ys) && n < |ys| && i < |ys[n].h.log|
    ensures var h := ys[n].h; var it := h.log[i];
      it.buf.tlen == |it.buf.data| && it.seqno in h.calls && Copied(it.buf, beyond) == h.calls[it.seqno]
  {
    QueriesOnceInOrder(s0, ps, ys, n);
  }

  /** Over every run without overtaking, what `rpc_call` copies out is the response, whatever lies
      in the memory behind the payload. */
  lemma ReplyCopiesInOrder(s0: nat, ps: seq<Step>, ys: seq<System>, n: nat, i: nat, beyond: nat -> byte)
    requires Run(s0, ps, ys) && InOrder(ps, ys) && n < |ys| && i < |ys[n].h.replies|
    ensures var h := ys[n].h; var s := h.replies[i].seqno;
      s in h.resps && Copied(h.replies[i].buf, beyond) == h.resps[s]
  {
    RepliesExactInOrder(s0, ps, ys, n, i);
    var r := ys[n].h.resps[ys[n].h.replies[i].seqno];
    assert Copied(Buf(|r|, r), beyond) == r;
  }

  /** On any network: a response that fits one packet always comes back exactly. For a longer one
      the length handed back is right, and either the bytes are too, or the payload was the last
      fragment alone and the rest of the bytes came from beyond it. */
  lemma RepliesOnAnyNetwork(s0: nat, ps: seq<Step>, ys: seq<System>, n: nat, i: nat)
    requires Run(s0, ps, ys) && n < |ys| && i < |ys[n].h.replies|
    ensures var h := ys[n].h; var s := h.replies[i].seqno;
      && s in h.calls && s in h.resps && ReplyOk(h.replies[i].buf, h.resps[s])
      && h.replies[i].buf.tlen == |h.resps[s]|
      && (|h.resps[s]| <= FR_SIZE ==> h.replies[i].buf == Buf(|h.resps[s]|, h.resps[s]))
      && (h.replies[i].buf.tlen <= |h.replies[i].buf.data| <==> h.replies[i].buf == Buf(|h.resps[s]|, h.resps[s]))
  {
    RunInv(s0, ps, ys, n);
    assert Logged(ys[n].h, ys[n].h.replies[i].seqno);
    CopyOut(ys[n].h.replies[i].buf, ys[n].h.resps[ys[n].h.replies[i].seqno]);
  }

  /** When exactly a response taken by the client is right: not if its last fragment finds the
      record still waiting for a first packet. */
  lemma ResponseExactIff(y: System, i: nat)
    requires Inv(y) && y.clLive && i < |y.s2c| && y.s2c[i].cmd == RESPONSE && y.s2c[i].seqno == y.cl.seqno
    requires Expecting(y.cl.state) || (y.cl.state == FACK_SENT && y.s2c[i].fnum == y.cl.lastFrag + 1)
    ensures var r := OnMsg(y.cl, y.s2c[i]).rec;
      && r.state == IDLE && r.resp.Some? && y.cl.seqno in y.h.resps
      && (r.resp.value == Buf(|y.h.resps[y.cl.seqno]|, y.h.resps[y.cl.seqno])
          <==> y.s2c[i].nfrags == 1 || !Expecting(y.cl.state))
  {
    var m := y.s2c[i];
    assert ServerSent(m, y.h);
    NFragsBounds(|y.h.resps[m.seqno]|);
    if Expecting(y.cl.state) {
      if m.nfrags == 1 {
        OnlyFragment(m, y.h.resps);
      }
    } else {
      LastFragment(y.cl.resp.value, m, y.h.resps, y.cl.lastFrag);
    }
  }

  /** Every fragment copied into a buffer finds one, and fits it. */
  lemma ServerCopiesInBounds(y: System, i: nat)
    requires Inv(y) && y.svLive && i < |y.c2s| && y.c2s[i].seqno == y.sv.seqno
    requires y.sv.state == FACK_SENT && y.c2s[i].fnum == y.sv.lastFrag + 1
    requires y.c2s[i].cmd == FRAGMENT || y.c2s[i].cmd == QUERY
    ensures y.sv.resp.Some? && Fits(y.sv.resp.value, y.c2s[i])
  {
    var m := y.c2s[i];
    assert ClientSent(m, y.h);
    if m.cmd == FRAGMENT {
      NextFragment(y.sv.resp.value, m, y.h.calls, y.sv.lastFrag);
    } else {
      LastFragment(y.sv.resp.value, m, y.h.calls, y.sv.lastFrag);
    }
  }

  lemma ClientCopiesInBounds(y: System, i: nat)
    requires Inv(y) && y.clLive && i < |y.s2c| && y.s2c[i].seqno == y.cl.seqno
    requires y.cl.state == FACK_SENT && y.s2c[i].fnum == y.cl.lastFrag + 1
    requires y.s2c[i].cmd == FRAGMENT || y.s2c[i].cmd == RESPONSE
    ensures y.cl.resp.Some? && Fits(y.cl.resp.value, y.s2c[i])
  {
    var m := y.s2c[i];
    assert ServerSent(m, y.h);
    if m.cmd == FRAGMENT {
      NextFragment(y.cl.resp.value, m, y.h.resps, y.cl.lastFrag);
    } else {
      LastFragment(y.cl.resp.value, m, y.h.resps, y.cl.lastFrag);
    }
  }

  /** `rpc_call` never looks for a response that is not there. */
  lemma ResponseThere(s0: nat, ps: seq<Step>, ys: seq<System>, n: nat)
    requires Run(s0, ps, ys) && n < |ys| && CallFinishOk(ys[n]) && ys[n].cl.state == IDLE
    ensures ys[n].cl.resp.Some? && ys[n].cl.seqno in ys[n].h.resps
  {
    RunInv(s0, ps, ys, n);
  }

  // ----- why the order matters ------------------------------------------------------------------

  lemma Extend(s0: nat, ps: seq<Step>, ys: seq<System>, p: Step) returns (qs: seq<Step>, zs: seq<System>)
    requires Run(s0, ps, ys) && Enabled(ys[|ps|], p)
    ensures Run(s0, qs, zs) && qs == ps + [p] && zs == ys + [Next(ys[|ps|], p)]
  {
    qs, zs := ps + [p], ys + [Next(ys[|ps|], p)];
    forall i | 0 <= i < |qs|
      ensures Enabled(zs[i], qs[i]) && zs[i + 1] == Next(zs[i], qs[i])
    {
      if i < |ps| {
        assert zs[i] == ys[i] && zs[i + 1] == ys[i + 1] && qs[i] == ps[i];
      }
    }
  }

  /** A response of one byte more than a packet carries. */
  function LongResponse(): seq<byte> {
    seq(FR_SIZE + 1, i requires 0 <= i => if i < FR_SIZE then 1 else 2)
  }

  /** The server takes the CONNECT. */
  lemma OvertakingStart() returns (ps: seq<Step>, ys: seq<System>)
    ensures Run(0, ps, ys)
    ensures var y := ys[|ps|];
      && y.cpc == Connecting && y.clLive && y.cl.seqno == 0 && y.cl.state == CONNECT_SENT
      && y.spc == Free && y.svLive && y.sv.seqno == 0 && y.sv.state == IDLE
      && y.c2s == [Control(CONNECT, 0, 1, 1)] && y.s2c == [Control(CACK, 0, 1, 1)] && y.h.replies == []
  {
    ps, ys := [], [Start(0)];
    ps, ys := Extend(0, ps, ys, ToServer(0));
  }

  /** A connection is set up. */
  lemma Overtaking0() returns (ps: seq<Step>, ys: seq<System>)
    ensures Run(0, ps, ys)
    ensures var y := ys[|ps|];
      && y.cpc == Connecting && y.clLive && y.cl.seqno == 0 && y.cl.state == IDLE
      && y.spc == Free && y.svLive && y.sv.seqno == 0 && y.sv.state == IDLE
      && y.c2s == [Control(CONNECT, 0, 1, 1)] && |y.s2c| == 1 && y.h.replies == []
  {
    ps, ys := OvertakingStart();
    ps, ys := Extend(0, ps, ys, ToClient(0));
  }

  /** A call is made and its query is on its way. */
  lemma Overtaking1() returns (ps: seq<Step>, ys: seq<System>)
    ensures Run(0, ps, ys)
    ensures var y := ys[|ps|];
      && y.cpc == WaitingResponse && y.clLive && y.cl.seqno == 1 && y.cl.state == QUERY_SENT
      && y.spc == Free && y.svLive && y.sv.seqno == 0 && y.sv.state == IDLE
      && y.c2s == [Control(CONNECT, 0, 1, 1), Msg(QUERY, 1, 1, 1, 1, [7])] && |y.s2c| == 1 && y.h.replies == []
  {
    ps, ys := Overtaking0();
    assert Chunk([7], 1) == [7];
    assert Piece(QUERY, 1, [7], 1) == Msg(QUERY, 1, 1, 1, 1, [7]);
    ps, ys := Extend(0, ps, ys, ConnectDone);
    ps, ys := Extend(0, ps, ys, CallStart([7]));
  }

  /** The server takes the query. */
  lemma OvertakingQuery() returns (ps: seq<Step>, ys: seq<System>)
    ensures Run(0, ps, ys)
    ensures var y := ys[|ps|];
      && y.cpc == WaitingResponse && y.clLive && y.cl.seqno == 1 && y.cl.state == QUERY_SENT
      && y.spc == Free && y.svLive && y.sv.seqno == 1 && y.sv.state == QACK_SENT
      && |y.c2s| == 2 && |y.s2c| == 2 && y.s2c[1] == Control(QACK, 1, 1, 1) && y.h.replies == []
  {
    ps, ys := Overtaking1();
    ps, ys := Extend(0, ps, ys, ToServer(1));
  }

  /** It answers with the first of two fragments; the client takes and acknowledges it while the
      QACK is still on its way. */
  lemma Overtaking2() returns (ps: seq<Step>, ys: seq<System>)
    ensures Run(0, ps, ys)
    ensures var y := ys[|ps|]; var r := LongResponse();
      && y.cpc == WaitingResponse && y.clLive && y.cl.seqno == 1 && y.cl.state == FACK_SENT
      && y.spc == SendingResponse(r, 1) && y.svLive && y.sv.seqno == 1 && y.sv.state == FACK_RECEIVED
      && |y.s2c| == 3 && y.s2c[1] == Control(QACK, 1, 1, 1) && y.h.replies == [] && 1 in y.h.resps && y.h.resps[1] == r
  {
    var r := LongResponse();
    ps, ys := OvertakingQuery();
    ps, ys := Extend(0, ps, ys, RespondStart(r));
    ps, ys := Extend(0, ps, ys, ToClient(2));
    ps, ys := Extend(0, ps, ys, ToServer(2));
  }

  /** The server sends the last fragment; the QACK arrives, and the client waits for a response. */
  lemma Overtaking3() returns (ps: seq<Step>, ys: seq<System>)
    ensures Run(0, ps, ys)
    ensures var y := ys[|ps|];
      && y.cpc == WaitingResponse && y.clLive && y.cl.seqno == 1 && y.cl.state == AWAITING_RESPONSE
      && |y.s2c| == 4 && y.s2c[3] == Msg(RESPONSE, 1, 2, 2, FR_SIZE + 1, [2])
      && y.h.replies == [] && 1 in y.h.resps && y.h.resps[1] == LongResponse()
  {
    ps, ys := Overtaking2();
    ps, ys := Extend(0, ps, ys, RespondNext);
    ps, ys := Extend(0, ps, ys, ToClient(1));
  }

  /** When the QACK overtakes nothing but is overtaken, the last fragment of the response is
      taken for the whole: the call returns 1 and the right length, 1025, with the last byte of
      the response and then 1024 bytes from beyond the packet. */
  lemma OvertakingBreaksReplies() returns (ps: seq<Step>, ys: seq<System>)
    ensures Run(0, ps, ys) && !InOrder(ps, ys)
    ensures var h := ys[|ps|].h;
      && |h.replies| == 1 && h.replies[0] == Reply(1, Buf(FR_SIZE + 1, [2]))
      && 1 in h.resps && h.resps[1] == LongResponse() && !Exact(h.replies[0].buf, h.resps[1])
      && h.replies[0].buf.tlen == |h.replies[0].buf.data| + FR_SIZE
  {
    ps, ys := Overtaking3();
    ps, ys := Extend(0, ps, ys, ToClient(3));
    ps, ys := Extend(0, ps, ys, CallFinish(0xFFFF));
    if InOrder(ps, ys) {
      RepliesExactInOrder(0, ps, ys, |ps|, 0);
    }
  }
}
