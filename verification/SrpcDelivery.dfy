/** Calls get through although every packet is lost the first time it is sent. */
module SrpcDelivery {
  import opened Options
  import opened Octets
  import opened Guards
  import opened SrpcRecord
  import opened SrpcSystem
  import opened SrpcSafety

  // ----- steps on a network that loses the first copy -------------------------------------------

  /** Nothing is delivered but copies of a packet that was sent before, and the server's packets do not
      overtake each other. */
  ghost predicate Lossy(y: System, p: Step) {
    && Enabled(y, p)
    && match p
       case ToServer(i) => y.c2s[i] in y.c2s[..i]
       case ToClient(i) => y.last <= i && y.s2c[i] in y.s2c[..i]
       case _ => true
  }

  ghost predicate Goes(y: System, ps: seq<Step>, z: System)
    decreases |ps|
  {
    if ps == [] then z == y else Lossy(y, ps[0]) && Goes(Next(y, ps[0]), ps[1..], z)
  }

  lemma {:induction false} GoesOn(y: System, ps: seq<Step>, m: System, qs: seq<Step>, z: System)
    requires Goes(y, ps, m) && Goes(m, qs, z)
    ensures Goes(y, ps + qs, z)
    decreases |ps|
  {
    if ps == [] {
      assert ps + qs == qs;
    } else {
      assert (ps + qs)[1..] == ps[1..] + qs;
      GoesOn(Next(y, ps[0]), ps[1..], m, qs, z);
    }
  }

  lemma GoesStep(y: System, p: Step)
    requires Lossy(y, p)
    ensures Goes(y, [p], Next(y, p))
  {
    assert [p][1..] == [];
    assert Goes(Next(y, p), [], Next(y, p));
  }

  // ----- the timers -----------------------------------------------------------------------------

  lemma ClientTick(y: System)
    requires y.clLive && Sending(y.cl.state) && 2 <= y.cl.ticksLeft
    ensures Lossy(y, ClientTimer) && Next(y, ClientTimer) == y.(cl := y.cl.(ticksLeft := y.cl.ticksLeft - 1))
  {}

  lemma ClientRetry(y: System, p: Msg)
    requires y.clLive && Sending(y.cl.state) && y.cl.ticksLeft == 1 && 2 <= y.cl.nattempts && 2 * y.cl.ticks < 0x1_0000 && y.cl.ticks >= 1
    requires y.cl.pl == Some(p)
    ensures Lossy(y, ClientTimer)
    ensures Next(y, ClientTimer) == y.(cl := y.cl.(nattempts := y.cl.nattempts - 1, ticks := 2 * y.cl.ticks, ticksLeft := 2 * y.cl.ticks), c2s := y.c2s + [p])
  {}

  /** The state when the client's ticks have run down and it has sent its packet again. */
  function ClientAgain(y: System, p: Msg): System {
    y.(cl := y.cl.(nattempts := if y.cl.nattempts > 0 then y.cl.nattempts - 1 else 0, ticks := 2 * y.cl.ticks, ticksLeft := 2 * y.cl.ticks),
       c2s := y.c2s + [p])
  }

  lemma {:induction false} ClientRetries(y: System, p: Msg) returns (ps: seq<Step>)
    requires y.clLive && Sending(y.cl.state) && 1 <= y.cl.ticksLeft && 2 <= y.cl.nattempts && 2 * y.cl.ticks < 0x1_0000 && y.cl.ticks >= 1
    requires y.cl.pl == Some(p)
    ensures Goes(y, ps, ClientAgain(y, p))
    decreases y.cl.ticksLeft
  {
    if y.cl.ticksLeft == 1 {
      ClientRetry(y, p);
      GoesStep(y, ClientTimer);
      ps := [ClientTimer];
    } else {
      ClientTick(y);
      GoesStep(y, ClientTimer);
      var z := y.(cl := y.cl.(ticksLeft := y.cl.ticksLeft - 1));
      var qs := ClientRetries(z, p);
      assert ClientAgain(z, p) == ClientAgain(y, p);
      GoesOn(y, [ClientTimer], z, qs, ClientAgain(y, p));
      ps := [ClientTimer] + qs;
    }
  }

  function ServerAgain(y: System, p: Msg): System {
    y.(sv := y.sv.(nattempts := if y.sv.nattempts > 0 then y.sv.nattempts - 1 else 0, ticks := 2 * y.sv.ticks, ticksLeft := 2 * y.sv.ticks),
       s2c := y.s2c + [p])
  }

  lemma ServerTick(y: System)
    requires y.svLive && Sending(y.sv.state) && 2 <= y.sv.ticksLeft
    ensures Lossy(y, ServerTimer) && Next(y, ServerTimer) == y.(sv := y.sv.(ticksLeft := y.sv.ticksLeft - 1))
  {}

  lemma ServerRetry(y: System, p: Msg)
    requires y.svLive && Sending(y.sv.state) && y.sv.ticksLeft == 1 && 2 <= y.sv.nattempts && 2 * y.sv.ticks < 0x1_0000 && y.sv.ticks >= 1
    requires y.sv.pl == Some(p)
    ensures Lossy(y, ServerTimer) && Next(y, ServerTimer) == ServerAgain(y, p)
  {}

  lemma {:induction false} ServerRetries(y: System, p: Msg) returns (ps: seq<Step>)
    requires y.svLive && Sending(y.sv.state) && 1 <= y.sv.ticksLeft && 2 <= y.sv.nattempts && 2 * y.sv.ticks < 0x1_0000 && y.sv.ticks >= 1
    requires y.sv.pl == Some(p)
    ensures Goes(y, ps, ServerAgain(y, p))
    decreases y.sv.ticksLeft
  {
    if y.sv.ticksLeft == 1 {
      ServerRetry(y, p);
      GoesStep(y, ServerTimer);
      ps := [ServerTimer];
    } else {
      ServerTick(y);
      GoesStep(y, ServerTimer);
      var z := y.(sv := y.sv.(ticksLeft := y.sv.ticksLeft - 1));
      var qs := ServerRetries(z, p);
      assert ServerAgain(z, p) == ServerAgain(y, p);
      GoesOn(y, [ServerTimer], z, qs, ServerAgain(y, p));
      ps := [ServerTimer] + qs;
    }
  }

  // ----- records --------------------------------------------------------------------------------

  /** The record has just been given packet `p` to send. */
  ghost predicate Fresh(r: Rec, p: Msg) {
    r.pl == Some(p) && r.nattempts == ATTEMPTS && r.ticks == TICKS && r.ticksLeft == TICKS
  }

  function Fack(m: Msg): Msg {
    Control(FACK, m.seqno, m.fnum, m.nfrags)
  }

  /** Ready for piece `f` of the call with number `s`, and with piece `f` taken. */
  ghost predicate ServerReady(sv: Rec, s: nat, f: nat) {
    if f == 1 then sv.seqno + 1 == s && (sv.state == IDLE || sv.state == RESPONSE_SENT)
    else sv.seqno == s && sv.state == FACK_SENT && sv.lastFrag + 1 == f && sv.resp.Some?
  }

  ghost predicate Has(r: Rec, m: Msg) {
    r.seqno == m.seqno && r.state == FACK_SENT && r.lastFrag == m.fnum && r.resp.Some? && r.pl == Some(Fack(m))
  }

  ghost predicate ClientReady(cl: Rec, s: nat, f: nat) {
    && cl.seqno == s
    && if f == 1 then cl.state == QUERY_SENT || cl.state == AWAITING_RESPONSE
       else cl.state == FACK_SENT && cl.lastFrag + 1 == f && cl.resp.Some?
  }

  lemma FragmentTakenBy(r: Rec, m: Msg)
    requires m.cmd == FRAGMENT && (ServerReady(r, m.seqno, m.fnum) || ClientReady(r, m.seqno, m.fnum))
    ensures var o := OnMsg(r, m); Has(o.rec, m) && o.send == [Fack(m)] && o.enq == []
  {}

  lemma FragmentAgain(r: Rec, m: Msg)
    requires m.cmd == FRAGMENT && Has(r, m)
    ensures var o := OnMsg(r, m); Has(o.rec, m) && o.send == [Fack(m)] && o.enq == []
  {}

  lemma QueryTakenBy(r: Rec, m: Msg)
    requires m.cmd == QUERY && m.fnum == m.nfrags && ServerReady(r, m.seqno, m.fnum)
    ensures var o := OnMsg(r, m);
      && o.rec.state == QACK_SENT && o.rec.seqno == m.seqno && o.rec.pl == Some(Control(QACK, m.seqno, m.fnum, m.nfrags))
      && o.send == [Control(QACK, m.seqno, m.fnum, m.nfrags)] && |o.enq| == 1
  {}

  lemma QueryAgain(r: Rec, m: Msg)
    requires m.cmd == QUERY && r.seqno == m.seqno && r.state == QACK_SENT && r.pl == Some(Control(QACK, m.seqno, m.fnum, m.nfrags))
    ensures var o := OnMsg(r, m);
      && o.rec.state == QACK_SENT && o.rec.seqno == m.seqno && o.rec.pl == r.pl
      && o.send == [Control(QACK, m.seqno, m.fnum, m.nfrags)] && o.enq == []
  {}

  lemma ResponseTakenBy(r: Rec, m: Msg)
    requires m.cmd == RESPONSE && m.fnum == m.nfrags && ClientReady(r, m.seqno, m.fnum)
    ensures var o := OnMsg(r, m); o.rec.state == IDLE && o.rec.seqno == m.seqno && o.rec.resp.Some?
  {}

  // ----- deliveries -----------------------------------------------------------------------------

  lemma ServerGets(y: System, i: nat, o: Out)
    requires y.svLive && i < |y.c2s| && y.c2s[i] in y.c2s[..i] && o == OnMsg(y.sv, y.c2s[i])
    ensures Lossy(y, ToServer(i))
    ensures Next(y, ToServer(i)) ==
      y.(sv := o.rec, s2c := y.s2c + o.send, h := y.h.(reach := o.rec.seqno, log := y.h.log + Items(o.rec.seqno, o.enq)))
  {}

  lemma ClientGets(y: System, i: nat, o: Out)
    requires y.clLive && y.last <= i < |y.s2c| && y.s2c[i] in y.s2c[..i] && o == OnMsg(y.cl, y.s2c[i])
    ensures Lossy(y, ToClient(i))
    ensures Next(y, ToClient(i)) == y.(last := i, cl := o.rec, c2s := y.c2s + o.send)
  {}

  lemma LastCopy(ms: seq<Msg>, p: Msg)
    requires p in ms
    ensures (ms + [p])[|ms|] == p && p in (ms + [p])[..|ms|]
  {
    assert (ms + [p])[..|ms|] == ms;
  }

  // ----- the fragments of a query ---------------------------------------------------------------

  /** What a call does not change until it is over. */
  ghost predicate SameBooks(y: System, z: System) {
    && z.h.calls == y.h.calls && z.h.resps == y.h.resps && z.h.replies == y.h.replies && z.cl.seqno == y.cl.seqno
    && z.clLive && z.svLive && z.last <= |z.s2c|
  }

  /** Piece `f` of the query `q` was sent, its only copy is lost, and the server is ready for it. */
  ghost predicate QueryOut(y: System, q: seq<byte>, f: nat) {
    && |q| > 0 && 1 <= f <= NFrags(|q|)
    && var p := Piece(QUERY, y.cl.seqno, q, f);
       && y.clLive && Fresh(y.cl, p) && p in y.c2s && y.last <= |y.s2c| && y.svLive && y.spc == Free
       && (if f < NFrags(|q|) then y.cpc == SendingQuery(q, f) && y.cl.state == FRAGMENT_SENT && y.cl.lastFrag == f
           else y.cpc == WaitingResponse && y.cl.state == QUERY_SENT)
       && ServerReady(y.sv, y.cl.seqno, f)
  }

  /** The client repeats the fragment; the server takes it, and its FACK is lost. */
  lemma FragmentArrives(y: System, p: Msg) returns (ps: seq<Step>, z: System)
    requires y.clLive && y.cl.state == FRAGMENT_SENT && Fresh(y.cl, p) && p in y.c2s && p.cmd == FRAGMENT
    requires y.svLive && ServerReady(y.sv, p.seqno, p.fnum)
    ensures Goes(y, ps, z)
    ensures z == y.(cl := y.cl.(nattempts := 6, ticks := 4, ticksLeft := 4), c2s := y.c2s + [p], sv := z.sv, s2c := y.s2c + [Fack(p)], h := y.h.(reach := p.seqno))
    ensures Has(z.sv, p)
  {
    var qs := ClientRetries(y, p);
    var y1 := ClientAgain(y, p);
    LastCopy(y.c2s, p);
    var o := OnMsg(y1.sv, p);
    FragmentTakenBy(y1.sv, p);
    ServerGets(y1, |y.c2s|, o);
    z := Next(y1, ToServer(|y.c2s|));
    GoesStep(y1, ToServer(|y.c2s|));
    GoesOn(y, qs, y1, [ToServer(|y.c2s|)], z);
    ps := qs + [ToServer(|y.c2s|)];
    assert y.h.log + Items(p.seqno, []) == y.h.log;
  }

  /** The client repeats it once more; the server answers with the same FACK, and that arrives. */
  lemma FackArrives(y: System, p: Msg) returns (ps: seq<Step>, z: System)
    requires y.clLive && y.cl.state == FRAGMENT_SENT && y.cl.pl == Some(p) && y.cl.nattempts == 6 && y.cl.ticks == 4 && y.cl.ticksLeft == 4
    requires p in y.c2s && p.cmd == FRAGMENT && y.cl.seqno == p.seqno && y.cl.lastFrag == p.fnum
    requires y.svLive && Has(y.sv, p) && Fack(p) in y.s2c && y.last <= |y.s2c| && y.h.reach == p.seqno
    ensures Goes(y, ps, z)
    ensures z == y.(cl := z.cl, c2s := y.c2s + [p], sv := z.sv, s2c := y.s2c + [Fack(p)], last := |y.s2c|)
    ensures z.cl.state == FACK_RECEIVED && z.cl.seqno == p.seqno && z.cl.lastFrag == p.fnum && Has(z.sv, p)
  {
    var qs := ClientRetries(y, p);
    var y1 := ClientAgain(y, p);
    var i, k := |y.c2s|, |y.s2c|;
    LastCopy(y.c2s, p);
    LastCopy(y.s2c, Fack(p));
    FragmentAgain(y1.sv, p);
    ServerGets(y1, i, OnMsg(y1.sv, p));
    assert y.h.log + Items(p.seqno, []) == y.h.log;
    var y2 := Next(y1, ToServer(i));
    ClientGets(y2, k, OnMsg(y2.cl, Fack(p)));
    z := Next(y2, ToClient(k));
    GoesStep(y1, ToServer(i));
    GoesStep(y2, ToClient(k));
    GoesOn(y1, [ToServer(i)], y2, [ToClient(k)], z);
    GoesOn(y, qs, y1, [ToServer(i)] + [ToClient(k)], z);
    ps := qs + ([ToServer(i)] + [ToClient(k)]);
    assert y2.c2s + [] == y2.c2s;
  }

  /** The next piece goes out. */
  lemma NextPieceOut(y: System, q: seq<byte>, f: nat)
    requires y.cpc == SendingQuery(q, f) && y.clLive && y.cl.state == FACK_RECEIVED && |q| > 0 && 1 <= f < NFrags(|q|)
    requires y.svLive && y.spc == Free && ServerReady(y.sv, y.cl.seqno, f + 1) && y.last <= |y.s2c|
    ensures Lossy(y, CallNext) && QueryOut(Next(y, CallNext), q, f + 1) && SameBooks(y, Next(y, CallNext))
    ensures Next(y, CallNext).h.log == y.h.log
  {}

  lemma QueryFragment(y: System, q: seq<byte>, f: nat) returns (ps: seq<Step>, z: System)
    requires QueryOut(y, q, f) && f < NFrags(|q|)
    ensures Goes(y, ps, z) && QueryOut(z, q, f + 1) && SameBooks(y, z) && z.h.log == y.h.log
  {
    var p := Piece(QUERY, y.cl.seqno, q, f);
    var ps1, y1 := FragmentArrives(y, p);
    var ps2, y2 := FackArrives(y1, p);
    GoesOn(y, ps1, y1, ps2, y2);
    NextPieceOut(y2, q, f);
    z := Next(y2, CallNext);
    GoesStep(y2, CallNext);
    GoesOn(y, ps1 + ps2, y2, [CallNext], z);
    ps := ps1 + ps2 + [CallNext];
  }

  ghost predicate QueryHeld(y: System, q: seq<byte>, f: nat) {
    forall k {:trigger Open(k)} :: Open(k) ==> QueryOut(y, q, f)
  }

  /** From `y` with piece after piece to `z`, where piece `f` is out. */
  ghost predicate QueryGoes(y: System, ps: seq<Step>, z: System, q: seq<byte>, f: nat) {
    forall k {:trigger Open(k)} :: Open(k) ==> Goes(y, ps, z) && QueryOut(z, q, f) && SameBooks(y, z) && z.h.log == y.h.log
  }

  lemma OnePiece(y: System, q: seq<byte>, f: nat) returns (ps: seq<Step>, z: System)
    requires QueryHeld(y, q, f) && |q| > 0 && f < NFrags(|q|)
    ensures QueryGoes(y, ps, z, q, f + 1)
  {
    assert Open(0);
    ps, z := QueryFragment(y, q, f);
  }

  lemma NoPiece(y: System, q: seq<byte>, f: nat)
    requires QueryHeld(y, q, f)
    ensures QueryGoes(y, [], y, q, f)
  {}

  lemma MorePieces(y: System, ps: seq<Step>, m: System, qs: seq<Step>, z: System, q: seq<byte>, f: nat, g: nat)
    requires QueryGoes(y, ps, m, q, f) && QueryGoes(m, qs, z, q, g)
    ensures QueryGoes(y, ps + qs, z, q, g)
  {
    assert Open(0);
    GoesOn(y, ps, m, qs, z);
  }

  lemma ThenHeld(y: System, ps: seq<Step>, z: System, q: seq<byte>, f: nat)
    requires QueryGoes(y, ps, z, q, f)
    ensures QueryHeld(z, q, f)
  {}

  lemma {:induction false} AllPieces(y: System, q: seq<byte>, f: nat) returns (ps: seq<Step>, z: System)
    requires QueryHeld(y, q, f) && |q| > 0 && f <= NFrags(|q|)
    ensures QueryGoes(y, ps, z, q, NFrags(|q|))
    decreases NFrags(|q|) - f
  {
    if f == NFrags(|q|) {
      ps, z := [], y;
      NoPiece(y, q, f);
    } else {
      var ps1, y1 := OnePiece(y, q, f);
      ThenHeld(y, ps1, y1, q, f + 1);
      var ps2;
      ps2, z := AllPieces(y1, q, f + 1);
      MorePieces(y, ps1, y1, ps2, z, q, f + 1, NFrags(|q|));
      ps := ps1 + ps2;
    }
  }

  // ----- the end of a query ---------------------------------------------------------------------

  /** The query is queued, and the client knows. */
  ghost predicate QueryIn(y: System, s: nat) {
    && y.cpc == WaitingResponse && y.clLive && y.cl.seqno == s && y.cl.state == AWAITING_RESPONSE
    && y.svLive && y.spc == Free && y.sv.seqno == s && y.sv.state == QACK_SENT && y.last <= |y.s2c| && y.h.reach == s
  }

  function Qack(m: Msg): Msg {
    Control(QACK, m.seqno, m.fnum, m.nfrags)
  }

  lemma QueryArrives(y: System, p: Msg) returns (ps: seq<Step>, z: System)
    requires y.clLive && y.cl.state == QUERY_SENT && Fresh(y.cl, p) && p in y.c2s && p.cmd == QUERY && p.fnum == p.nfrags
    requires y.svLive && ServerReady(y.sv, p.seqno, p.fnum)
    ensures Goes(y, ps, z)
    ensures z == y.(cl := y.cl.(nattempts := 6, ticks := 4, ticksLeft := 4), c2s := y.c2s + [p], sv := z.sv, s2c := y.s2c + [Qack(p)],
                    h := y.h.(reach := p.seqno, log := z.h.log))
    ensures z.sv.state == QACK_SENT && z.sv.seqno == p.seqno && z.sv.pl == Some(Qack(p))
    ensures |z.h.log| == |y.h.log| + 1 && y.h.log <= z.h.log && z.h.log[|y.h.log|].seqno == p.seqno
  {
    var qs := ClientRetries(y, p);
    var y1 := ClientAgain(y, p);
    LastCopy(y.c2s, p);
    QueryTakenBy(y1.sv, p);
    ServerGets(y1, |y.c2s|, OnMsg(y1.sv, p));
    z := Next(y1, ToServer(|y.c2s|));
    GoesStep(y1, ToServer(|y.c2s|));
    GoesOn(y, qs, y1, [ToServer(|y.c2s|)], z);
    ps := qs + [ToServer(|y.c2s|)];
  }

  lemma QackArrives(y: System, p: Msg) returns (ps: seq<Step>, z: System)
    requires y.clLive && y.cl.state == QUERY_SENT && y.cl.pl == Some(p) && y.cl.nattempts == 6 && y.cl.ticks == 4 && y.cl.ticksLeft == 4
    requires p in y.c2s && p.cmd == QUERY && y.cl.seqno == p.seqno && y.last <= |y.s2c| && y.h.reach == p.seqno
    requires y.svLive && y.sv.state == QACK_SENT && y.sv.seqno == p.seqno && y.sv.pl == Some(Qack(p)) && Qack(p) in y.s2c
    ensures Goes(y, ps, z)
    ensures z == y.(cl := z.cl, c2s := y.c2s + [p], sv := z.sv, s2c := y.s2c + [Qack(p)], last := |y.s2c|)
    ensures z.cl.state == AWAITING_RESPONSE && z.cl.seqno == p.seqno && z.sv.state == QACK_SENT && z.sv.seqno == p.seqno
  {
    var qs := ClientRetries(y, p);
    var y1 := ClientAgain(y, p);
    var i, k := |y.c2s|, |y.s2c|;
    LastCopy(y.c2s, p);
    LastCopy(y.s2c, Qack(p));
    QueryAgain(y1.sv, p);
    ServerGets(y1, i, OnMsg(y1.sv, p));
    assert y.h.log + Items(p.seqno, []) == y.h.log;
    var y2 := Next(y1, ToServer(i));
    ClientGets(y2, k, OnMsg(y2.cl, Qack(p)));
    z := Next(y2, ToClient(k));
    GoesStep(y1, ToServer(i));
    GoesStep(y2, ToClient(k));
    GoesOn(y1, [ToServer(i)], y2, [ToClient(k)], z);
    GoesOn(y, qs, y1, [ToServer(i)] + [ToClient(k)], z);
    ps := qs + ([ToServer(i)] + [ToClient(k)]);
    assert y2.c2s + [] == y2.c2s;
  }

  lemma QueryEnds(y: System, q: seq<byte>) returns (ps: seq<Step>, z: System)
    requires |q| > 0 && QueryOut(y, q, NFrags(|q|))
    ensures Goes(y, ps, z) && QueryIn(z, y.cl.seqno) && SameBooks(y, z)
    ensures |z.h.log| == |y.h.log| + 1 && y.h.log <= z.h.log && z.h.log[|y.h.log|].seqno == y.cl.seqno
  {
    var p := Piece(QUERY, y.cl.seqno, q, NFrags(|q|));
    var ps1, y1 := QueryArrives(y, p);
    var ps2;
    ps2, z := QackArrives(y1, p);
    GoesOn(y, ps1, y1, ps2, z);
    ps := ps1 + ps2;
  }

  // ----- the fragments of a response ------------------------------------------------------------

  /** Piece `f` of the response `r` was sent, its only copy is lost, and the client is ready for it. */
  ghost predicate ResponseOut(y: System, r: seq<byte>, f: nat) {
    && |r| > 0 && 1 <= f <= NFrags(|r|)
    && var p := Piece(RESPONSE, y.sv.seqno, r, f);
       && y.svLive && Fresh(y.sv, p) && p in y.s2c && y.last <= |y.s2c| && y.clLive && y.cpc == WaitingResponse
       && (if f < NFrags(|r|) then y.spc == SendingResponse(r, f) && y.sv.state == FRAGMENT_SENT && y.sv.lastFrag == f
           else y.spc == Free && y.sv.state == RESPONSE_SENT)
       && ClientReady(y.cl, y.sv.seqno, f) && y.h.reach == y.sv.seqno
  }

  /** The server repeats the fragment; the client takes it, and its FACK is lost. */
  lemma ResponseFragmentArrives(y: System, p: Msg) returns (ps: seq<Step>, z: System)
    requires y.svLive && y.sv.state == FRAGMENT_SENT && Fresh(y.sv, p) && p in y.s2c && p.cmd == FRAGMENT && y.last <= |y.s2c|
    requires y.clLive && ClientReady(y.cl, p.seqno, p.fnum)
    ensures Goes(y, ps, z)
    ensures z == y.(sv := y.sv.(nattempts := 6, ticks := 4, ticksLeft := 4), s2c := y.s2c + [p], cl := z.cl, c2s := y.c2s + [Fack(p)], last := |y.s2c|)
    ensures Has(z.cl, p)
  {
    var qs := ServerRetries(y, p);
    var y1 := ServerAgain(y, p);
    LastCopy(y.s2c, p);
    FragmentTakenBy(y1.cl, p);
    ClientGets(y1, |y.s2c|, OnMsg(y1.cl, p));
    z := Next(y1, ToClient(|y.s2c|));
    GoesStep(y1, ToClient(|y.s2c|));
    GoesOn(y, qs, y1, [ToClient(|y.s2c|)], z);
    ps := qs + [ToClient(|y.s2c|)];
  }

  lemma ResponseFackArrives(y: System, p: Msg) returns (ps: seq<Step>, z: System)
    requires y.svLive && y.sv.state == FRAGMENT_SENT && y.sv.pl == Some(p) && y.sv.nattempts == 6 && y.sv.ticks == 4 && y.sv.ticksLeft == 4
    requires p in y.s2c && p.cmd == FRAGMENT && y.sv.seqno == p.seqno && y.sv.lastFrag == p.fnum && y.last <= |y.s2c| && y.h.reach == p.seqno
    requires y.clLive && Has(y.cl, p) && Fack(p) in y.c2s
    ensures Goes(y, ps, z)
    ensures z == y.(sv := z.sv, s2c := y.s2c + [p], cl := z.cl, c2s := y.c2s + [Fack(p)], last := |y.s2c|)
    ensures z.sv.state == FACK_RECEIVED && z.sv.seqno == p.seqno && z.sv.lastFrag == p.fnum && Has(z.cl, p)
  {
    var qs := ServerRetries(y, p);
    var y1 := ServerAgain(y, p);
    var i, k := |y.s2c|, |y.c2s|;
    LastCopy(y.s2c, p);
    LastCopy(y.c2s, Fack(p));
    FragmentAgain(y1.cl, p);
    ClientGets(y1, i, OnMsg(y1.cl, p));
    var y2 := Next(y1, ToClient(i));
    ServerGets(y2, k, OnMsg(y2.sv, Fack(p)));
    assert y.h.log + Items(p.seqno, []) == y.h.log;
    z := Next(y2, ToServer(k));
    GoesStep(y1, ToClient(i));
    GoesStep(y2, ToServer(k));
    GoesOn(y1, [ToClient(i)], y2, [ToServer(k)], z);
    GoesOn(y, qs, y1, [ToClient(i)] + [ToServer(k)], z);
    ps := qs + ([ToClient(i)] + [ToServer(k)]);
    assert y2.s2c + [] == y2.s2c;
  }

  lemma NextResponsePieceOut(y: System, r: seq<byte>, f: nat)
    requires y.spc == SendingResponse(r, f) && y.svLive && y.sv.state == FACK_RECEIVED && |r| > 0 && 1 <= f < NFrags(|r|)
    requires y.clLive && y.cpc == WaitingResponse && ClientReady(y.cl, y.sv.seqno, f + 1) && y.last <= |y.s2c| && y.h.reach == y.sv.seqno
    ensures Lossy(y, RespondNext) && ResponseOut(Next(y, RespondNext), r, f + 1) && SameBooks(y, Next(y, RespondNext))
    ensures Next(y, RespondNext).h.log == y.h.log && Next(y, RespondNext).sv.seqno == y.sv.seqno
  {}

  lemma ResponseFragment(y: System, r: seq<byte>, f: nat) returns (ps: seq<Step>, z: System)
    requires ResponseOut(y, r, f) && f < NFrags(|r|)
    ensures Goes(y, ps, z) && ResponseOut(z, r, f + 1) && SameBooks(y, z) && z.h.log == y.h.log && z.sv.seqno == y.sv.seqno
  {
    var p := Piece(RESPONSE, y.sv.seqno, r, f);
    var ps1, y1 := ResponseFragmentArrives(y, p);
    var ps2, y2 := ResponseFackArrives(y1, p);
    GoesOn(y, ps1, y1, ps2, y2);
    NextResponsePieceOut(y2, r, f);
    z := Next(y2, RespondNext);
    GoesStep(y2, RespondNext);
    GoesOn(y, ps1 + ps2, y2, [RespondNext], z);
    ps := ps1 + ps2 + [RespondNext];
  }

  ghost predicate ResponseHeld(y: System, r: seq<byte>, f: nat) {
    forall k {:trigger Open(k)} :: Open(k) ==> ResponseOut(y, r, f)
  }

  ghost predicate ResponseGoes(y: System, ps: seq<Step>, z: System, r: seq<byte>, f: nat) {
    forall k {:trigger Open(k)} :: Open(k) ==>
      Goes(y, ps, z) && ResponseOut(z, r, f) && SameBooks(y, z) && z.h.log == y.h.log && z.sv.seqno == y.sv.seqno
  }

  lemma OneResponsePiece(y: System, r: seq<byte>, f: nat) returns (ps: seq<Step>, z: System)
    requires ResponseHeld(y, r, f) && |r| > 0 && f < NFrags(|r|)
    ensures ResponseGoes(y, ps, z, r, f + 1)
  {
    assert Open(0);
    ps, z := ResponseFragment(y, r, f);
  }

  lemma NoResponsePiece(y: System, r: seq<byte>, f: nat)
    requires ResponseHeld(y, r, f)
    ensures ResponseGoes(y, [], y, r, f)
  {}

  lemma MoreResponsePieces(y: System, ps: seq<Step>, m: System, qs: seq<Step>, z: System, r: seq<byte>, f: nat, g: nat)
    requires ResponseGoes(y, ps, m, r, f) && ResponseGoes(m, qs, z, r, g)
    ensures ResponseGoes(y, ps + qs, z, r, g)
  {
    assert Open(0);
    GoesOn(y, ps, m, qs, z);
  }

  lemma ThenResponseHeld(y: System, ps: seq<Step>, z: System, r: seq<byte>, f: nat)
    requires ResponseGoes(y, ps, z, r, f)
    ensures ResponseHeld(z, r, f)
  {}

  lemma {:induction false} AllResponsePieces(y: System, r: seq<byte>, f: nat) returns (ps: seq<Step>, z: System)
    requires ResponseHeld(y, r, f) && |r| > 0 && f <= NFrags(|r|)
    ensures ResponseGoes(y, ps, z, r, NFrags(|r|))
    decreases NFrags(|r|) - f
  {
    if f == NFrags(|r|) {
      ps, z := [], y;
      NoResponsePiece(y, r, f);
    } else {
      var ps1, y1 := OneResponsePiece(y, r, f);
      ThenResponseHeld(y, ps1, y1, r, f + 1);
      var ps2;
      ps2, z := AllResponsePieces(y1, r, f + 1);
      MoreResponsePieces(y, ps1, y1, ps2, z, r, f + 1, NFrags(|r|));
      ps := ps1 + ps2;
    }
  }

  /** The end of the response arrives, again as a copy. */
  lemma ResponseEnds(y: System, r: seq<byte>) returns (ps: seq<Step>, z: System)
    requires |r| > 0 && ResponseOut(y, r, NFrags(|r|))
    ensures Goes(y, ps, z) && SameBooks(y, z) && z.h.log == y.h.log
    ensures z.cpc == WaitingResponse && z.cl.state == IDLE && z.cl.resp.Some? && z.cl.seqno == y.sv.seqno
    ensures z.spc == Free && z.sv.state == RESPONSE_SENT && z.sv.seqno == y.sv.seqno
  {
    var p := Piece(RESPONSE, y.sv.seqno, r, NFrags(|r|));
    var qs := ServerRetries(y, p);
    var y1 := ServerAgain(y, p);
    LastCopy(y.s2c, p);
    ResponseTakenBy(y1.cl, p);
    ClientGets(y1, |y.s2c|, OnMsg(y1.cl, p));
    z := Next(y1, ToClient(|y.s2c|));
    GoesStep(y1, ToClient(|y.s2c|));
    GoesOn(y, qs, y1, [ToClient(|y.s2c|)], z);
    ps := qs + [ToClient(|y.s2c|)];
  }
}
