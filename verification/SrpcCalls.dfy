/** Whole calls on a network that loses the first copy of every packet. */
module SrpcCalls {
  import opened Options
  import opened Octets
  import opened Guards
  import opened SrpcRecord
  import opened SrpcSystem
  import opened SrpcSafety
  import opened SrpcOrder
  import opened SrpcDelivery

  // ----- one call -------------------------------------------------------------------------------

  /** Connected, and no call under way. */
  ghost predicate Quiet(y: System) {
    && y.cpc == Ready && y.clLive && y.cl.state == IDLE && y.last <= |y.s2c|
    && y.svLive && y.spc == Free && y.sv.seqno == y.cl.seqno && (y.sv.state == IDLE || y.sv.state == RESPONSE_SENT)
  }

  lemma CallOut(y: System, q: seq<byte>)
    requires Quiet(y) && Sized(q) && y.cl.seqno < SEQNO_LIMIT
    ensures Lossy(y, CallStart(q))
    ensures var z := Next(y, CallStart(q));
      && QueryOut(z, q, 1) && z.cl.seqno == y.cl.seqno + 1 && z.h.calls == y.h.calls[y.cl.seqno + 1 := q]
      && z.h.resps == y.h.resps && z.h.replies == y.h.replies && z.h.log == y.h.log
  {
    NFragsBounds(|q|);
  }

  lemma ResponseStarts(y: System, s: nat, r: seq<byte>)
    requires QueryIn(y, s) && Sized(r)
    ensures Lossy(y, RespondStart(r))
    ensures var z := Next(y, RespondStart(r));
      && ResponseOut(z, r, 1) && z.cl == y.cl && z.sv.seqno == s && z.h.calls == y.h.calls
      && z.h.resps == y.h.resps[s := r] && z.h.replies == y.h.replies && z.h.log == y.h.log
  {
    NFragsBounds(|r|);
  }

  /** The query has been queued, and the response is there for the caller. */
  ghost predicate Served(y: System, z: System, q: seq<byte>, r: seq<byte>) {
    var s := y.cl.seqno + 1;
    && z.cpc == WaitingResponse && z.clLive && z.cl.seqno == s && z.cl.state == IDLE && z.cl.resp.Some? && z.last <= |z.s2c|
    && z.svLive && z.spc == Free && z.sv.seqno == s && z.sv.state == RESPONSE_SENT
    && z.h.calls == y.h.calls[s := q] && z.h.resps == y.h.resps[s := r] && z.h.replies == y.h.replies
    && |z.h.log| == |y.h.log| + 1 && y.h.log <= z.h.log && z.h.log[|y.h.log|].seqno == s
  }

  /** The query gets to the server. */
  lemma QueryDelivered(y: System, q: seq<byte>) returns (ps: seq<Step>, z: System)
    requires QueryHeld(y, q, 1) && |q| > 0
    ensures Goes(y, ps, z) && QueryIn(z, y.cl.seqno) && SameBooks(y, z)
    ensures |z.h.log| == |y.h.log| + 1 && y.h.log <= z.h.log && z.h.log[|y.h.log|].seqno == y.cl.seqno
  {
    var ps1, y1 := AllPieces(y, q, 1);
    assert Open(0);
    var ps2;
    ps2, z := QueryEnds(y1, q);
    GoesOn(y, ps1, y1, ps2, z);
    ps := ps1 + ps2;
  }

  /** The response gets to the client. */
  lemma ResponseDelivered(y: System, r: seq<byte>) returns (ps: seq<Step>, z: System)
    requires ResponseHeld(y, r, 1) && |r| > 0
    ensures Goes(y, ps, z) && SameBooks(y, z) && z.h.log == y.h.log
    ensures z.cpc == WaitingResponse && z.cl.state == IDLE && z.cl.resp.Some? && z.cl.seqno == y.sv.seqno
    ensures z.spc == Free && z.sv.state == RESPONSE_SENT && z.sv.seqno == y.sv.seqno
  {
    var ps1, y1 := AllResponsePieces(y, r, 1);
    assert Open(0);
    var ps2;
    ps2, z := ResponseEnds(y1, r);
    GoesOn(y, ps1, y1, ps2, z);
    ps := ps1 + ps2;
  }

  lemma CallServed(y: System, q: seq<byte>, r: seq<byte>) returns (ps: seq<Step>, z: System)
    requires Quiet(y) && Sized(q) && Sized(r) && y.cl.seqno < SEQNO_LIMIT
    ensures Goes(y, ps, z) && Served(y, z, q, r)
  {
    CallOut(y, q);
    var y1 := Next(y, CallStart(q));
    var ps2, y2 := QueryDelivered(y1, q);
    ResponseStarts(y2, y.cl.seqno + 1, r);
    var y3 := Next(y2, RespondStart(r));
    var ps4;
    ps4, z := ResponseDelivered(y3, r);
    GoesStep(y, CallStart(q));
    GoesStep(y2, RespondStart(r));
    GoesOn(y, [CallStart(q)], y1, ps2, y2);
    GoesOn(y2, [RespondStart(r)], y3, ps4, z);
    GoesOn(y, [CallStart(q)] + ps2, y2, [RespondStart(r)] + ps4, z);
    ps := [CallStart(q)] + ps2 + ([RespondStart(r)] + ps4);
  }

  // ----- runs -----------------------------------------------------------------------------------

  /** A run of nothing but such steps. */
  ghost predicate LossyRun(s0: nat, ps: seq<Step>, ys: seq<System>) {
    && |ys| == |ps| + 1 && ys[0] == Start(s0)
    && forall i {:trigger Lossy(ys[i], ps[i])} :: 0 <= i < |ps| ==> Lossy(ys[i], ps[i]) && ys[i + 1] == Next(ys[i], ps[i])
  }

  /** That is a run, and nothing overtakes. */
  lemma LossyIsRun(s0: nat, ps: seq<Step>, ys: seq<System>)
    requires LossyRun(s0, ps, ys)
    ensures Run(s0, ps, ys) && InOrder(ps, ys)
  {
    forall i | 0 <= i < |ps|
      ensures Enabled(ys[i], ps[i]) && ys[i + 1] == Next(ys[i], ps[i])
    {
      assert Lossy(ys[i], ps[i]);
    }
    forall i | 0 <= i < |ps| && ps[i].ToClient?
      ensures ys[i].last <= ps[i].i
    {
      assert Lossy(ys[i], ps[i]);
    }
  }

  lemma OneMore(s0: nat, ps: seq<Step>, ys: seq<System>, p: Step)
    requires LossyRun(s0, ps, ys) && Lossy(ys[|ps|], p)
    ensures LossyRun(s0, ps + [p], ys + [Next(ys[|ps|], p)])
  {
    var qs, zs := ps + [p], ys + [Next(ys[|ps|], p)];
    forall i | 0 <= i < |qs|
      ensures Lossy(zs[i], qs[i]) && zs[i + 1] == Next(zs[i], qs[i])
    {
      if i < |ps| {
        assert Lossy(ys[i], ps[i]);
      }
    }
  }

  lemma {:induction false} GoOn(s0: nat, ps: seq<Step>, ys: seq<System>, qs: seq<Step>, z: System) returns (zs: seq<System>)
    requires LossyRun(s0, ps, ys) && Goes(ys[|ps|], qs, z)
    ensures LossyRun(s0, ps + qs, zs) && zs[|ps + qs|] == z
    decreases |qs|
  {
    if qs == [] {
      zs := ys;
      assert ps + qs == ps;
    } else {
      OneMore(s0, ps, ys, qs[0]);
      zs := GoOn(s0, ps + [qs[0]], ys + [Next(ys[|ps|], qs[0])], qs[1..], z);
      assert ps + [qs[0]] + qs[1..] == ps + qs;
    }
  }

  /** What the caller and the service see of a call. */
  ghost predicate CallDone(y: System, z: System, q: seq<byte>, r: seq<byte>) {
    var s := y.cl.seqno + 1;
    && Quiet(z) && z.cl.seqno == s
    && z.h.replies == y.h.replies + [Reply(s, Buf(|r|, r))] && z.h.log == y.h.log + [Item(s, Buf(|q|, q))]
  }

  lemma Returns(y: System, z: System, q: seq<byte>, r: seq<byte>)
    requires Served(y, z, q, r) && z.cl.resp.value == Buf(|r|, r) && |r| <= 0xFFFF && z.h.log[|y.h.log|] == Item(y.cl.seqno + 1, Buf(|q|, q))
    ensures Lossy(z, CallFinish(0xFFFF)) && CallDone(y, Next(z, CallFinish(0xFFFF)), q, r)
  {
    assert z.h.log == y.h.log + [z.h.log[|y.h.log|]];
  }

  lemma ServedExactly(s0: nat, ps: seq<Step>, ys: seq<System>, y: System, q: seq<byte>, r: seq<byte>)
    requires LossyRun(s0, ps, ys) && Served(y, ys[|ps|], q, r)
    ensures var z := ys[|ps|]; z.cl.resp.value == Buf(|r|, r) && z.h.log[|y.h.log|] == Item(y.cl.seqno + 1, Buf(|q|, q))
  {
    LossyIsRun(s0, ps, ys);
    RunOrder(s0, ps, ys, |ps|);
    ExactThen(ys[|ps|], y, q, r);
  }

  lemma ExactThen(z: System, y: System, q: seq<byte>, r: seq<byte>)
    requires OrderInv(z) && Served(y, z, q, r)
    ensures z.cl.resp.value == Buf(|r|, r) && z.h.log[|y.h.log|] == Item(y.cl.seqno + 1, Buf(|q|, q))
  {}

  /** From any connected state with no call under way, reached on such a network: a call of any size is
      answered by a response of any size, although of every packet the first copy is lost. The service
      gets exactly the query, once, and the caller exactly the response. */
  lemma LossyCall(s0: nat, ps: seq<Step>, ys: seq<System>, q: seq<byte>, r: seq<byte>) returns (qs: seq<Step>, zs: seq<System>)
    requires LossyRun(s0, ps, ys) && Quiet(ys[|ps|]) && Sized(q) && Sized(r) && ys[|ps|].cl.seqno < SEQNO_LIMIT
    ensures LossyRun(s0, ps + qs, zs) && CallDone(ys[|ps|], zs[|ps + qs|], q, r)
  {
    var y := ys[|ps|];
    var ps1, z := CallServed(y, q, r);
    var zs1 := GoOn(s0, ps, ys, ps1, z);
    ServedExactly(s0, ps + ps1, zs1, y, q, r);
    Returns(y, z, q, r);
    OneMore(s0, ps + ps1, zs1, CallFinish(0xFFFF));
    qs := ps1 + [CallFinish(0xFFFF)];
    zs := zs1 + [Next(z, CallFinish(0xFFFF))];
    assert ps + ps1 + [CallFinish(0xFFFF)] == ps + qs;
  }

  // ----- connecting -----------------------------------------------------------------------------

  /** The CONNECT is repeated; the server makes a record, and its CACK is lost. */
  lemma ConnectArrives(s0: nat) returns (ps: seq<Step>, z: System)
    ensures Goes(Start(s0), ps, z)
    ensures z == Start(s0).(
      cl := Start(s0).cl.(nattempts := 6, ticks := 4, ticksLeft := 4), c2s := [Control(CONNECT, s0, 1, 1), Control(CONNECT, s0, 1, 1)],
      sv := z.sv, svBorn := true, svLive := true, s2c := [Control(CACK, s0, 1, 1)])
    ensures z.sv.state == IDLE && z.sv.seqno == s0 && z.sv.pl == Some(Control(CACK, s0, 1, 1))
  {
    var y, p := Start(s0), Control(CONNECT, s0, 1, 1);
    var qs := ClientRetries(y, p);
    var y1 := ClientAgain(y, p);
    LastCopy(y.c2s, p);
    z := Next(y1, ToServer(1));
    GoesStep(y1, ToServer(1));
    GoesOn(y, qs, y1, [ToServer(1)], z);
    ps := qs + [ToServer(1)];
  }

  /** It is repeated once more, the server repeats the CACK, and that arrives. */
  lemma CackArrives(y: System, s0: nat) returns (ps: seq<Step>, z: System)
    requires y.clLive && y.cpc == Connecting && y.cl.state == CONNECT_SENT && y.cl.seqno == s0 && y.cl.pl == Some(Control(CONNECT, s0, 1, 1))
    requires y.cl.nattempts == 6 && y.cl.ticks == 4 && y.cl.ticksLeft == 4 && Control(CONNECT, s0, 1, 1) in y.c2s
    requires y.svLive && y.spc == Free && y.sv.state == IDLE && y.sv.seqno == s0 && y.sv.pl == Some(Control(CACK, s0, 1, 1)) && Control(CACK, s0, 1, 1) in y.s2c
    requires y.last <= |y.s2c| && y.h.reach == s0
    ensures Goes(y, ps, z) && Quiet(z) && z.cl.seqno == s0 && z.h == y.h
  {
    var p, a := Control(CONNECT, s0, 1, 1), Control(CACK, s0, 1, 1);
    var qs := ClientRetries(y, p);
    var y1 := ClientAgain(y, p);
    var i, k := |y.c2s|, |y.s2c|;
    LastCopy(y.c2s, p);
    LastCopy(y.s2c, a);
    ServerGets(y1, i, OnMsg(y1.sv, p));
    assert y.h.log + Items(s0, []) == y.h.log;
    var y2 := Next(y1, ToServer(i));
    ClientGets(y2, k, OnMsg(y2.cl, a));
    var y3 := Next(y2, ToClient(k));
    z := Next(y3, ConnectDone);
    GoesStep(y1, ToServer(i));
    GoesStep(y2, ToClient(k));
    GoesStep(y3, ConnectDone);
    GoesOn(y2, [ToClient(k)], y3, [ConnectDone], z);
    GoesOn(y1, [ToServer(i)], y2, [ToClient(k)] + [ConnectDone], z);
    GoesOn(y, qs, y1, [ToServer(i)] + ([ToClient(k)] + [ConnectDone]), z);
    ps := qs + ([ToServer(i)] + ([ToClient(k)] + [ConnectDone]));
  }

  lemma LossyConnect(s0: nat) returns (ps: seq<Step>, ys: seq<System>)
    ensures LossyRun(s0, ps, ys) && Quiet(ys[|ps|]) && ys[|ps|].cl.seqno == s0 && ys[|ps|].h.replies == [] && ys[|ps|].h.log == []
  {
    var ps1, y1 := ConnectArrives(s0);
    var ps2, z := CackArrives(y1, s0);
    GoesOn(Start(s0), ps1, y1, ps2, z);
    ys := GoOn(s0, [], [Start(s0)], ps1 + ps2, z);
    assert [] + (ps1 + ps2) == ps1 + ps2;
    ps := ps1 + ps2;
  }

  // ----- any number of calls --------------------------------------------------------------------

  datatype Job = Job(query: seq<byte>, response: seq<byte>)

  function Replies(s0: nat, jobs: seq<Job>): seq<Reply> {
    seq(|jobs|, i requires 0 <= i < |jobs| => Reply(s0 + 1 + i, Buf(|jobs[i].response|, jobs[i].response)))
  }

  function Queries(s0: nat, jobs: seq<Job>): seq<Item> {
    seq(|jobs|, i requires 0 <= i < |jobs| => Item(s0 + 1 + i, Buf(|jobs[i].query|, jobs[i].query)))
  }

  /** A connection is set up and any number of calls are made on it, one after the other, on a network that
      loses the first copy of every packet: the service gets exactly the queries, in order, each once, and
      every call returns exactly its response. */
  lemma {:induction false} LossyCalls(s0: nat, jobs: seq<Job>) returns (ps: seq<Step>, ys: seq<System>)
    requires s0 + |jobs| <= SEQNO_LIMIT && forall i :: 0 <= i < |jobs| ==> Sized(jobs[i].query) && Sized(jobs[i].response)
    ensures LossyRun(s0, ps, ys) && Quiet(ys[|ps|]) && ys[|ps|].cl.seqno == s0 + |jobs|
    ensures ys[|ps|].h.replies == Replies(s0, jobs) && ys[|ps|].h.log == Queries(s0, jobs)
  {
    if jobs == [] {
      ps, ys := LossyConnect(s0);
    } else {
      var n := |jobs| - 1;
      var ps1, ys1 := LossyCalls(s0, jobs[..n]);
      var qs;
      qs, ys := LossyCall(s0, ps1, ys1, jobs[n].query, jobs[n].response);
      ps := ps1 + qs;
      assert Replies(s0, jobs) == Replies(s0, jobs[..n]) + [Reply(s0 + 1 + n, Buf(|jobs[n].response|, jobs[n].response))];
      assert Queries(s0, jobs) == Queries(s0, jobs[..n]) + [Item(s0 + 1 + n, Buf(|jobs[n].query|, jobs[n].query))];
    }
  }
}
