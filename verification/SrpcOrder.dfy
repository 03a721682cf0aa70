/** What holds in addition when the server's packets, though they may be lost or repeated, do not
    overtake each other on the way to the client: every reply is exactly the response. */
module SrpcOrder {
  import opened SrpcRecord
  import opened SrpcSystem
  import opened SrpcSafety
  import opened Guards
  import opened Options
  import opened Octets

  // ----- the order in which the server sends ----------------------------------------------------

  predicate IsData(m: Msg) {
    m.cmd == QACK || m.cmd == FRAGMENT || m.cmd == RESPONSE
  }

  /** For one call the server sends QACK, then the fragments in turn, then the RESPONSE. */
  function Rank(m: Msg): nat {
    if m.cmd == QACK then 0 else m.fnum
  }

  predicate NotAfter(a: Msg, b: Msg) {
    a.seqno < b.seqno || (a.seqno == b.seqno && Rank(a) <= Rank(b))
  }

  /** No data packet in the log comes after `m`. */
  ghost predicate Latest(s2c: seq<Msg>, m: Msg) {
    IsData(m) ==> forall i :: 0 <= i < |s2c| && IsData(s2c[i]) ==> NotAfter(s2c[i], m)
  }

  ghost predicate Sorted(s2c: seq<Msg>) {
    forall i, j :: 0 <= i < j < |s2c| && IsData(s2c[i]) && IsData(s2c[j]) ==> NotAfter(s2c[i], s2c[j])
  }

  /** The log is sorted, and repeating the payload of the record keeps it so. */
  ghost predicate OrderOk(s2c: seq<Msg>, spc: ServerPc, sv: Rec) {
    && Sorted(s2c)
    && (sv.pl.Some? ==> Latest(s2c, sv.pl.value))
    && (spc.SendingResponse? && |spc.response| > 0 && 1 <= spc.fnum <= NFrags(|spc.response|) ==>
          sv.pl == Some(Piece(RESPONSE, sv.seqno, spc.response, spc.fnum)))
  }

  lemma AppendSorted(s2c: seq<Msg>, m: Msg)
    requires Sorted(s2c) && Latest(s2c, m)
    ensures Sorted(s2c + [m]) && Latest(s2c + [m], m)
  {
    var t := s2c + [m];
    forall i, j | 0 <= i < j < |t| && IsData(t[i]) && IsData(t[j])
      ensures NotAfter(t[i], t[j])
    {
      if j < |s2c| {
        assert t[i] == s2c[i] && t[j] == s2c[j];
      } else {
        assert t[i] == s2c[i];
      }
    }
  }

  lemma AppendControl(s2c: seq<Msg>, m: Msg, c: Msg)
    requires Latest(s2c, m) && !IsData(c)
    ensures Latest(s2c + [c], m)
  {}

  // ----- what the client has taken --------------------------------------------------------------

  predicate Answer(m: Msg, s: nat) {
    (m.cmd == FACK || m.cmd == RACK) && m.seqno == s
  }

  /** The client has acknowledged a fragment or the response of call `s`. */
  ghost predicate Taken(c2s: seq<Msg>, s: nat) {
    exists i :: 0 <= i < |c2s| && Answer(c2s[i], s)
  }

  /** A fragment or the response of call `s` lies at or before the last packet delivered. */
  ghost predicate Passed(s2c: seq<Msg>, last: nat, s: nat) {
    exists j :: 0 <= j < |s2c| && j <= last && (s2c[j].cmd == FRAGMENT || s2c[j].cmd == RESPONSE) && s2c[j].seqno == s
  }

  predicate Expecting(s: State) {
    s == QUERY_SENT || s == AWAITING_RESPONSE
  }

  ghost predicate TakenOk(c2s: seq<Msg>, s2c: seq<Msg>, last: nat, cl: Rec) {
    Taken(c2s, cl.seqno) ==> Passed(s2c, last, cl.seqno) && !Expecting(cl.state)
  }

  /** The last fragment of a long response is only sent after the client took one before it. */
  ghost predicate FragmentsTaken(c2s: seq<Msg>, s2c: seq<Msg>, spc: ServerPc, sv: Rec) {
    && (forall i :: 0 <= i < |s2c| && s2c[i].cmd == RESPONSE && s2c[i].nfrags > 1 ==> Taken(c2s, s2c[i].seqno))
    && (spc.SendingResponse? && sv.state == FACK_RECEIVED ==> Taken(c2s, sv.seqno))
  }

  ghost predicate Exact(b: Buf, r: seq<byte>) {
    b == Buf(|r|, r)
  }

  ghost predicate ExactOk(cpc: ClientPc, cl: Rec, h: History) {
    && (cpc.WaitingResponse? && cl.state == IDLE ==>
          cl.seqno in h.resps && cl.resp.Some? && Exact(cl.resp.value, h.resps[cl.seqno]))
    && (forall i :: 0 <= i < |h.replies| ==>
          h.replies[i].seqno in h.resps && Exact(h.replies[i].buf, h.resps[h.replies[i].seqno]))
  }

  ghost predicate OrderInv(y: System) {
    && Inv(y)
    && OrderOk(y.s2c, y.spc, y.sv)
    && TakenOk(y.c2s, y.s2c, y.last, y.cl)
    && FragmentsTaken(y.c2s, y.s2c, y.spc, y.sv)
    && ExactOk(y.cpc, y.cl, y.h)
  }

  /** The same, closed. */
  ghost predicate OrderHeld(y: System) {
    forall z {:trigger Open(z)} :: Open(z) ==> OrderInv(y)
  }

  lemma TakenGrows(c2s: seq<Msg>, a: seq<Msg>, s: nat)
    requires Taken(c2s, s)
    ensures Taken(c2s + a, s)
  {
    var i :| 0 <= i < |c2s| && Answer(c2s[i], s);
    assert (c2s + a)[i] == c2s[i];
  }

  lemma TakenBefore(c2s: seq<Msg>, a: seq<Msg>, s: nat)
    requires Taken(c2s + a, s) && forall i :: 0 <= i < |a| ==> !Answer(a[i], s) || a[i] in c2s
    ensures Taken(c2s, s)
  {
    var i :| 0 <= i < |c2s + a| && Answer((c2s + a)[i], s);
    if i < |c2s| {
      assert c2s[i] == (c2s + a)[i];
    } else {
      var m := a[i - |c2s|];
      assert m == (c2s + a)[i];
      var k :| 0 <= k < |c2s| && c2s[k] == m;
    }
  }

  lemma PassedGrows(s2c: seq<Msg>, b: seq<Msg>, last: nat, last': nat, s: nat)
    requires Passed(s2c, last, s) && last <= last'
    ensures Passed(s2c + b, last', s)
  {
    var j :| 0 <= j < |s2c| && j <= last && (s2c[j].cmd == FRAGMENT || s2c[j].cmd == RESPONSE) && s2c[j].seqno == s;
    assert (s2c + b)[j] == s2c[j];
  }

  /** Nothing of a call is taken before the call was answered. */
  lemma NotTaken(c2s: seq<Msg>, s2c: seq<Msg>, cpl: Option<Msg>, spl: Option<Msg>, h: History, s: nat)
    requires HistoryOk(h) && NetworkOk(c2s, s2c, cpl, spl, h) && s !in h.resps
    ensures !Taken(c2s, s)
  {}

  // ----- packets to the client ------------------------------------------------------------------

  /** In a sorted log nothing of a call's response comes before its QACK. */
  lemma QackFirst(s2c: seq<Msg>, h: History, last: nat, i: nat)
    requires Sorted(s2c) && last <= i < |s2c| && s2c[i].cmd == QACK && forall j :: 0 <= j < |s2c| ==> ServerSent(s2c[j], h)
    ensures !Passed(s2c, last, s2c[i].seqno)
  {
    forall j | 0 <= j < |s2c| && j <= last && (s2c[j].cmd == FRAGMENT || s2c[j].cmd == RESPONSE)
      ensures s2c[j].seqno != s2c[i].seqno
    {
      assert ServerSent(s2c[j], h);
      assert NotAfter(s2c[j], s2c[i]);
    }
  }

  /** Once a fragment or the response was taken, no QACK of the same call can still arrive. */
  lemma NoLateQack(y: System, i: nat)
    requires OrderInv(y) && y.last <= i < |y.s2c| && y.s2c[i].cmd == QACK && y.s2c[i].seqno == y.cl.seqno
    ensures !Taken(y.c2s, y.cl.seqno)
  {
    QackFirst(y.s2c, y.h, y.last, i);
  }

  /** A record that still expects its response is not sent the last fragment of a long one. */
  lemma NoEarlyResponse(y: System, i: nat)
    requires OrderInv(y) && i < |y.s2c| && y.s2c[i].cmd == RESPONSE && y.s2c[i].seqno == y.cl.seqno && Expecting(y.cl.state)
    ensures y.s2c[i].nfrags == 1
  {
    assert ServerSent(y.s2c[i], y.h);
  }

  ghost predicate Resent(a: seq<Msg>, c2s: seq<Msg>) {
    forall i :: 0 <= i < |a| ==> a[i] in c2s || (a[i].cmd != FACK && a[i].cmd != RACK)
  }

  /** A packet that answers nothing new. */
  lemma ClientQuiet(y: System, i: nat, o: Out)
    requires OrderInv(y) && y.last <= i < |y.s2c| && o.rec.seqno == y.cl.seqno && Resent(o.send, y.c2s)
    requires Expecting(o.rec.state) ==> Expecting(y.cl.state) || !Taken(y.c2s, y.cl.seqno)
    ensures TakenOk(y.c2s + o.send, y.s2c, i, o.rec)
  {
    if Taken(y.c2s + o.send, y.cl.seqno) {
      TakenBefore(y.c2s, o.send, y.cl.seqno);
      PassedGrows(y.s2c, [], y.last, i, y.cl.seqno);
      assert y.s2c + [] == y.s2c;
    }
  }

  lemma ClientAnswers(y: System, i: nat, o: Out)
    requires OrderInv(y) && i < |y.s2c| && (y.s2c[i].cmd == FRAGMENT || y.s2c[i].cmd == RESPONSE)
    requires y.s2c[i].seqno == o.rec.seqno && !Expecting(o.rec.state)
    ensures TakenOk(y.c2s + o.send, y.s2c, i, o.rec)
  {
    assert Passed(y.s2c, i, o.rec.seqno);
  }

  lemma ResponseTaken(y: System, i: nat)
    requires OrderInv(y) && y.last <= i < |y.s2c| && y.s2c[i].cmd == RESPONSE
    ensures var o := OnResponse(y.cl, y.s2c[i]); TakenOk(y.c2s + o.send, y.s2c, i, o.rec)
  {
    var o := OnResponse(y.cl, y.s2c[i]);
    if y.s2c[i].seqno == y.cl.seqno && o != Keep(y.cl) {
      ClientAnswers(y, i, o);
    } else {
      ClientQuiet(y, i, o);
    }
  }

  lemma FragmentTaken(y: System, i: nat)
    requires OrderInv(y) && y.last <= i < |y.s2c| && y.s2c[i].cmd == FRAGMENT
    ensures var o := OnFragment(y.cl, y.s2c[i]); TakenOk(y.c2s + o.send, y.s2c, i, o.rec)
  {
    var o := OnFragment(y.cl, y.s2c[i]);
    if y.s2c[i].seqno == y.cl.seqno && o.rec.state == FACK_SENT {
      ClientAnswers(y, i, o);
    } else {
      FragmentNotNew(y, i);
      ClientQuiet(y, i, o);
    }
  }

  lemma ToClientTaken(y: System, i: nat)
    requires OrderInv(y) && y.clLive && y.last <= i < |y.s2c|
    ensures var o := OnMsg(y.cl, y.s2c[i]); TakenOk(y.c2s + o.send, y.s2c, i, o.rec)
  {
    var m := y.s2c[i];
    if m.cmd == RESPONSE {
      ResponseTaken(y, i);
    } else if m.cmd == FRAGMENT {
      FragmentTaken(y, i);
    } else {
      assert ServerSent(m, y.h);
      if m.cmd == QACK && m.seqno == y.cl.seqno { NoLateQack(y, i); }
      ClientQuiet(y, i, OnMsg(y.cl, m));
    }
  }

  lemma FragmentNotNew(y: System, i: nat)
    requires Inv(y) && i < |y.s2c| && (y.s2c[i].cmd == FRAGMENT || y.s2c[i].cmd == RESPONSE)
    ensures y.s2c[i].seqno <= y.cl.seqno
  {
    assert ServerSent(y.s2c[i], y.h);
    assert Logged(y.h, y.s2c[i].seqno);
  }

  lemma ToClientExact(y: System, i: nat)
    requires OrderInv(y) && y.clLive && y.last <= i < |y.s2c|
    ensures ExactOk(y.cpc, OnMsg(y.cl, y.s2c[i]).rec, y.h)
  {
    var m := y.s2c[i];
    assert ServerSent(m, y.h);
    if y.cpc.WaitingResponse? && m.seqno == y.cl.seqno {
      if m.cmd == RESPONSE {
        if Expecting(y.cl.state) {
          NoEarlyResponse(y, i);
          OnlyFragment(m, y.h.resps);
        } else if y.cl.state == FACK_SENT && m.fnum == y.cl.lastFrag + 1 {
          LastFragment(y.cl.resp.value, m, y.h.resps, y.cl.lastFrag);
        }
      }
    }
  }

  lemma FragmentsTakenGrows(c2s: seq<Msg>, s2c: seq<Msg>, spc: ServerPc, sv: Rec, a: seq<Msg>)
    requires FragmentsTaken(c2s, s2c, spc, sv)
    ensures FragmentsTaken(c2s + a, s2c, spc, sv)
  {
    forall i | 0 <= i < |s2c| && s2c[i].cmd == RESPONSE && s2c[i].nfrags > 1
      ensures Taken(c2s + a, s2c[i].seqno)
    {
      TakenGrows(c2s, a, s2c[i].seqno);
    }
    if spc.SendingResponse? && sv.state == FACK_RECEIVED { TakenGrows(c2s, a, sv.seqno); }
  }

  lemma ToClientOrder(y: System, i: nat)
    requires OrderInv(y) && y.last <= i < |y.s2c|
    ensures OrderInv(DoToClient(y, i))
  {
    ToClientInv(y, i);
    if y.clLive {
      var o := OnMsg(y.cl, y.s2c[i]);
      ToClientTaken(y, i);
      ToClientExact(y, i);
      FragmentsTakenGrows(y.c2s, y.s2c, y.spc, y.sv, o.send);
    } else if Taken(y.c2s, y.cl.seqno) {
      PassedGrows(y.s2c, [], y.last, i, y.cl.seqno);
      assert y.s2c + [] == y.s2c;
    }
  }

  // ----- packets to the server ------------------------------------------------------------------

  lemma ServerSilent(s2c: seq<Msg>, spc: ServerPc, sv: Rec, o: Out)
    requires OrderOk(s2c, spc, sv) && o.send == [] && o.rec.pl == sv.pl && o.rec.seqno == sv.seqno
    ensures OrderOk(s2c + o.send, spc, o.rec)
  {
    assert s2c + [] == s2c;
  }

  /** A control packet that does not become the payload: PACK, PING, DACK. */
  lemma ServerNotes(s2c: seq<Msg>, spc: ServerPc, sv: Rec, o: Out, c: Msg)
    requires OrderOk(s2c, spc, sv) && o.send == [c] && !IsData(c) && o.rec.pl == sv.pl && o.rec.seqno == sv.seqno
    ensures OrderOk(s2c + o.send, spc, o.rec)
  {
    AppendSorted(s2c, c);
    if sv.pl.Some? { AppendControl(s2c, sv.pl.value, c); }
  }

  lemma ServerRepeats(s2c: seq<Msg>, spc: ServerPc, sv: Rec, o: Out)
    requires OrderOk(s2c, spc, sv) && sv.pl.Some? && o.send == [sv.pl.value] && o.rec.pl == sv.pl && o.rec.seqno == sv.seqno
    ensures OrderOk(s2c + o.send, spc, o.rec)
  {
    AppendSorted(s2c, sv.pl.value);
  }

  lemma ServerSends(s2c: seq<Msg>, o: Out, c: Msg)
    requires Sorted(s2c) && Latest(s2c, c) && o.send == [c] && o.rec.pl == Some(c)
    ensures OrderOk(s2c + o.send, Free, o.rec)
  {
    AppendSorted(s2c, c);
  }

  /** The QACK of a query not answered before comes after everything else. */
  lemma QackLatest(s2c: seq<Msg>, h: History, m: Msg)
    requires HistoryOk(h) && forall i :: 0 <= i < |s2c| ==> ServerSent(s2c[i], h)
    requires h.reach <= m.seqno && !Logged(h, m.seqno)
    ensures Latest(s2c, Control(QACK, m.seqno, m.fnum, m.nfrags))
  {
    forall i | 0 <= i < |s2c| && IsData(s2c[i])
      ensures s2c[i].seqno < m.seqno
    {
      assert ServerSent(s2c[i], h);
      assert Logged(h, s2c[i].seqno);
    }
  }

  lemma ToServerSortedQuery(y: System, i: nat)
    requires OrderInv(y) && y.svLive && i < |y.c2s| && y.c2s[i].cmd == QUERY
    ensures var o := OnMsg(y.sv, y.c2s[i]); OrderOk(y.s2c + o.send, y.spc, o.rec)
  {
    var m, sv := y.c2s[i], y.sv;
    var o := OnMsg(sv, m);
    assert ClientSent(m, y.h);
    if m.seqno == sv.seqno + 1 && (sv.state == IDLE || sv.state == RESPONSE_SENT) {
      NotLoggedYet(y.h, m.seqno);
      QackLatest(y.s2c, y.h, m);
      ServerSends(y.s2c, o, Control(QACK, m.seqno, m.fnum, m.nfrags));
    } else if m.seqno == sv.seqno && sv.state == FACK_SENT && m.fnum == sv.lastFrag + 1 && m.fnum == m.nfrags {
      QackLatest(y.s2c, y.h, m);
      ServerSends(y.s2c, o, Control(QACK, m.seqno, m.fnum, m.nfrags));
    } else if o.send != [] {
      ServerRepeats(y.s2c, y.spc, sv, o);
    } else {
      ServerSilent(y.s2c, y.spc, sv, o);
    }
  }

  lemma ToServerSortedFragment(y: System, i: nat)
    requires OrderInv(y) && y.svLive && i < |y.c2s| && y.c2s[i].cmd == FRAGMENT
    ensures var o := OnFragment(y.sv, y.c2s[i]); OrderOk(y.s2c + o.send, y.spc, o.rec)
  {
    var m, sv := y.c2s[i], y.sv;
    var o := OnFragment(sv, m);
    assert ClientSent(m, y.h);
    if o.rec.pl != sv.pl {
      ServerSends(y.s2c, o, Control(FACK, m.seqno, m.fnum, m.nfrags));
    } else if o.send == [] {
      ServerSilent(y.s2c, y.spc, sv, o);
    } else {
      ServerRepeats(y.s2c, y.spc, sv, o);
    }
  }

  lemma ToServerSorted(y: System, i: nat)
    requires OrderInv(y) && y.svLive && i < |y.c2s|
    ensures var o := OnMsg(y.sv, y.c2s[i]); OrderOk(y.s2c + o.send, y.spc, o.rec)
  {
    var m := y.c2s[i];
    var o := OnMsg(y.sv, m);
    assert ClientSent(m, y.h);
    if m.cmd == QUERY {
      ToServerSortedQuery(y, i);
    } else if m.cmd == FRAGMENT {
      ToServerSortedFragment(y, i);
    } else if o.send == [] {
      ServerSilent(y.s2c, y.spc, y.sv, o);
    } else if m.cmd == CONNECT {
      ServerRepeats(y.s2c, y.spc, y.sv, o);
    } else {
      ServerNotes(y.s2c, y.spc, y.sv, o, o.send[0]);
    }
  }

  /** No response piece is sent by a handler unless it was sent before. */
  ghost predicate NoNewResponse(b: seq<Msg>, s2c: seq<Msg>) {
    forall i :: 0 <= i < |b| && b[i].cmd == RESPONSE ==> b[i] in s2c
  }

  lemma ResponsesTaken(c2s: seq<Msg>, s2c: seq<Msg>, spc: ServerPc, sv: Rec, sv': Rec, b: seq<Msg>)
    requires FragmentsTaken(c2s, s2c, spc, sv) && NoNewResponse(b, s2c)
    requires spc.SendingResponse? && sv'.state == FACK_RECEIVED ==> Taken(c2s, sv'.seqno)
    ensures FragmentsTaken(c2s, s2c + b, spc, sv')
  {
    forall i | 0 <= i < |s2c + b| && (s2c + b)[i].cmd == RESPONSE && (s2c + b)[i].nfrags > 1
      ensures Taken(c2s, (s2c + b)[i].seqno)
    {
      if i >= |s2c| {
        var m := b[i - |s2c|];
        assert (s2c + b)[i] == m;
        var k :| 0 <= k < |s2c| && s2c[k] == m;
      }
    }
  }

  lemma ToServerTaken(y: System, i: nat)
    requires OrderInv(y) && y.svLive && i < |y.c2s|
    ensures var o := OnMsg(y.sv, y.c2s[i]); FragmentsTaken(y.c2s, y.s2c + o.send, y.spc, o.rec)
  {
    var m := y.c2s[i];
    var o := OnMsg(y.sv, m);
    assert ClientSent(m, y.h);
    if m.cmd == FACK && m.seqno == y.sv.seqno { assert Answer(m, y.sv.seqno); }
    ResponsesTaken(y.c2s, y.s2c, y.spc, y.sv, o.rec, o.send);
  }

  lemma StillPassed(y: System, b: seq<Msg>)
    requires TakenOk(y.c2s, y.s2c, y.last, y.cl)
    ensures TakenOk(y.c2s, y.s2c + b, y.last, y.cl)
  {
    if Taken(y.c2s, y.cl.seqno) {
      PassedGrows(y.s2c, b, y.last, y.last, y.cl.seqno);
    }
  }

  lemma ToServerLiveOrder(y: System, i: nat, y': System)
    requires OrderInv(y) && ToServerOk(y, i) && y.svLive && y' == DoToServer(y, i)
    requires Inv(y')
    ensures OrderInv(y')
  {
    ToServerSorted(y, i);
    ToServerTaken(y, i);
    StillPassed(y, OnMsg(y.sv, y.c2s[i]).send);
  }

  /** A control packet from a server without a record, or from the record just made. */
  lemma ServerPlainOrder(y: System, y': System, c: Msg)
    requires OrderInv(y) && Inv(y') && !IsData(c) && y.spc == Free
    requires y'.s2c == y.s2c + [c] && y'.c2s == y.c2s && y'.last == y.last && y'.cl == y.cl && y'.cpc == y.cpc && y'.h == y.h
    requires y'.spc == Free && (y'.sv.pl == Some(c) || y'.sv == y.sv)
    ensures OrderInv(y')
  {
    AppendSorted(y.s2c, c);
    if y.sv.pl.Some? { AppendControl(y.s2c, y.sv.pl.value, c); }
    ResponsesTaken(y.c2s, y.s2c, y.spc, y.sv, y'.sv, [c]);
    StillPassed(y, [c]);
  }

  /** The same while a worker is still in `rpc_response`; its record is gone. */
  lemma ServerGoneOrder(y: System, y': System, c: Msg)
    requires OrderInv(y) && Inv(y') && !IsData(c)
    requires y' == y.(s2c := y.s2c + [c])
    ensures OrderInv(y')
  {
    AppendSorted(y.s2c, c);
    if y.sv.pl.Some? { AppendControl(y.s2c, y.sv.pl.value, c); }
    ResponsesTaken(y.c2s, y.s2c, y.spc, y.sv, y.sv, [c]);
    StillPassed(y, [c]);
  }

  lemma ToServerOrder(y: System, i: nat, y': System)
    requires OrderHeld(y) && ToServerOk(y, i) && y' == DoToServer(y, i)
    requires InvHeld(y')
    ensures OrderInv(y')
  {
    assert Open(0);
    var m := y.c2s[i];
    if y.svLive {
      ToServerLiveOrder(y, i, y');
    } else if m.cmd == CONNECT && !y.svBorn {
      ServerPlainOrder(y, y', Control(CACK, m.seqno, 1, 1));
    } else if m.cmd == DISCONNECT {
      ServerGoneOrder(y, y', Control(DACK, m.seqno, 1, 1));
    }
  }

  // ----- the server's thread --------------------------------------------------------------------

  /** The first piece of a response comes after everything sent so far. */
  lemma FirstPieceLatest(y: System, p: Msg)
    requires Inv(y) && y.sv.state == QACK_SENT && p.seqno == y.sv.seqno && p.fnum == 1 && (p.cmd == FRAGMENT || p.cmd == RESPONSE)
    ensures Latest(y.s2c, p)
  {
    forall i | 0 <= i < |y.s2c| && IsData(y.s2c[i])
      ensures NotAfter(y.s2c[i], p)
    {
      assert ServerSent(y.s2c[i], y.h);
      assert Logged(y.h, y.s2c[i].seqno);
    }
  }

  lemma NextPieceLatest(s2c: seq<Msg>, p: Msg, q: Msg)
    requires Latest(s2c, p) && IsData(p) && IsData(q) && NotAfter(p, q)
    ensures Latest(s2c, q)
  {}

  /** `p` is a new piece of the response, the record's payload from now on. */
  ghost predicate PieceSent(y: System, y': System, p: Msg, r: seq<byte>, f: nat) {
    && y'.s2c == y.s2c + [p] && y'.c2s == y.c2s && y'.last == y.last && y'.cl == y.cl && y'.cpc == y.cpc
    && y'.sv.pl == Some(p) && y'.sv.seqno == y.sv.seqno && y'.sv.state != FACK_RECEIVED
    && (y'.spc == Free || y'.spc == SendingResponse(r, f))
    && y'.h.replies == y.h.replies && SubMap(y.h.resps, y'.h.resps)
  }

  lemma SendPieceSorted(y: System, y': System, p: Msg, r: seq<byte>, f: nat)
    requires OrderOk(y.s2c, y.spc, y.sv) && PieceSent(y, y', p, r, f) && Latest(y.s2c, p)
    requires |r| > 0 && 1 <= f <= NFrags(|r|) && p == Piece(RESPONSE, y.sv.seqno, r, f)
    ensures OrderOk(y'.s2c, y'.spc, y'.sv)
  {
    AppendSorted(y.s2c, p);
  }

  lemma SendPieceTaken(y: System, y': System, p: Msg, r: seq<byte>, f: nat)
    requires FragmentsTaken(y.c2s, y.s2c, y.spc, y.sv) && PieceSent(y, y', p, r, f)
    requires p.seqno == y.sv.seqno && (p.cmd == RESPONSE && p.nfrags > 1 ==> Taken(y.c2s, y.sv.seqno))
    ensures FragmentsTaken(y'.c2s, y'.s2c, y'.spc, y'.sv)
  {
    forall i | 0 <= i < |y'.s2c| && y'.s2c[i].cmd == RESPONSE && y'.s2c[i].nfrags > 1
      ensures Taken(y.c2s, y'.s2c[i].seqno)
    {
      if i < |y.s2c| { assert y'.s2c[i] == y.s2c[i]; }
    }
  }

  lemma ExactGrows(cpc: ClientPc, cl: Rec, h: History, h': History)
    requires ExactOk(cpc, cl, h) && h'.replies == h.replies && SubMap(h.resps, h'.resps)
    ensures ExactOk(cpc, cl, h')
  {}

  lemma SendPieceOrder(y: System, y': System, p: Msg, r: seq<byte>, f: nat)
    requires OrderInv(y) && Inv(y') && PieceSent(y, y', p, r, f) && Latest(y.s2c, p)
    requires |r| > 0 && 1 <= f <= NFrags(|r|) && p == Piece(RESPONSE, y.sv.seqno, r, f)
    requires f > 1 ==> Taken(y.c2s, y.sv.seqno)
    ensures OrderInv(y')
  {
    SendPieceSorted(y, y', p, r, f);
    SendPieceTaken(y, y', p, r, f);
    StillPassed(y, [p]);
    ExactGrows(y.cpc, y.cl, y.h, y'.h);
  }

  lemma RespondStartSends(y: System, r: seq<byte>, y': System)
    requires Inv(y) && RespondStartOk(y, r) && y' == DoRespondStart(y, r) && y.svLive && y.sv.state == QACK_SENT && 1 <= NFrags(|r|)
    ensures PieceSent(y, y', Piece(RESPONSE, y.sv.seqno, r, 1), r, 1)
  {}

  lemma RespondStartOrder(y: System, r: seq<byte>, y': System)
    requires OrderHeld(y) && RespondStartOk(y, r) && y' == DoRespondStart(y, r)
    requires InvHeld(y')
    ensures OrderInv(y')
  {
    assert Open(0);
    if y.svLive && y.sv.state == QACK_SENT {
      NFragsBounds(|r|);
      var p := Piece(RESPONSE, y.sv.seqno, r, 1);
      FirstPieceLatest(y, p);
      RespondStartSends(y, r, y');
      SendPieceOrder(y, y', p, r, 1);
    }
  }

  /** The next fragment, or the last one, goes out. */
  ghost predicate NextSent(y: System, y': System, r: seq<byte>, f: nat) {
    |r| > 0 && 1 <= f < NFrags(|r|) && PieceSent(y, y', Piece(RESPONSE, y.sv.seqno, r, f + 1), r, f + 1)
  }

  lemma RespondNextSends(y: System, y': System, r: seq<byte>, f: nat)
    requires Inv(y) && RespondNextOk(y) && y' == DoRespondNext(y) && y.sv.state == FACK_RECEIVED && y.spc == SendingResponse(r, f)
    ensures NextSent(y, y', r, f)
  {}

  lemma NextPieceOrder(y: System, y': System, r: seq<byte>, f: nat)
    requires OrderInv(y) && Inv(y') && y.spc == SendingResponse(r, f) && y.sv.state == FACK_RECEIVED && NextSent(y, y', r, f)
    ensures OrderInv(y')
  {
    var p, q := Piece(RESPONSE, y.sv.seqno, r, f), Piece(RESPONSE, y.sv.seqno, r, f + 1);
    NextPieceLatest(y.s2c, p, q);
    SendPieceOrder(y, y', q, r, f + 1);
  }

  lemma WorkerGivesUpOrder(y: System)
    requires OrderInv(y)
    ensures OrderInv(y.(spc := Free))
  {
    WorkerGivesUpInv(y);
  }

  lemma RespondNextOrder(y: System, y': System, r: seq<byte>, f: nat)
    requires OrderHeld(y) && InvHeld(y') && RespondNextOk(y) && y.sv.state == FACK_RECEIVED && y.spc == SendingResponse(r, f)
    requires y' == DoRespondNext(y)
    ensures OrderHeld(y')
  {
    assert NextSentHeld(y, y', r, f) by {
      assert Open(0);
      RespondNextSends(y, y', r, f);
    }
    RespondedNext(y, y', r, f);
  }

  ghost predicate NextSentHeld(y: System, y': System, r: seq<byte>, f: nat) {
    forall z {:trigger Open(z)} :: Open(z) ==> NextSent(y, y', r, f)
  }

  lemma RespondedNext(y: System, y': System, r: seq<byte>, f: nat)
    requires OrderHeld(y) && InvHeld(y') && y.spc == SendingResponse(r, f) && y.sv.state == FACK_RECEIVED && NextSentHeld(y, y', r, f)
    ensures OrderHeld(y')
  {
    assert Open(0);
    NextPieceOrder(y, y', r, f);
  }

  // ----- the client's thread --------------------------------------------------------------------

  /** The client's thread sends a query packet for a call that nothing was taken of. */
  ghost predicate QuerySent(y: System, y': System, p: Msg) {
    && y'.c2s == y.c2s + [p] && y'.s2c == y.s2c && y'.last == y.last && y'.spc == y.spc && y'.sv == y.sv
    && p.cmd != FACK && p.cmd != RACK && y'.cl.state != IDLE && y'.cl.seqno !in y.h.resps
    && y'.h.replies == y.h.replies && y'.h.resps == y.h.resps
  }

  lemma QuerySentOrder(y: System, y': System, p: Msg)
    requires OrderInv(y) && Inv(y') && QuerySent(y, y', p)
    ensures OrderInv(y')
  {
    NotTaken(y'.c2s, y'.s2c, y'.cl.pl, y'.sv.pl, y'.h, y'.cl.seqno);
    FragmentsTakenGrows(y.c2s, y.s2c, y.spc, y.sv, [p]);
  }

  lemma CallStartSends(y: System, q: seq<byte>, y': System)
    requires Inv(y) && CallStartOk(y, q) && y' == DoCallStart(y, q) && y.clLive && y.cl.state == IDLE && 1 <= NFrags(|q|)
    ensures QuerySent(y, y', Piece(QUERY, y.cl.seqno + 1, q, 1))
  {}

  lemma CallStartOrder(y: System, q: seq<byte>, y': System)
    requires OrderHeld(y) && CallStartOk(y, q) && y' == DoCallStart(y, q)
    requires InvHeld(y')
    ensures OrderInv(y')
  {
    assert Open(0);
    if y.clLive && y.cl.state == IDLE {
      NFragsBounds(|q|);
      CallStartSends(y, q, y');
      QuerySentOrder(y, y', Piece(QUERY, y.cl.seqno + 1, q, 1));
    }
  }

  lemma CallNextSends(y: System, y': System)
    requires Inv(y) && CallNextOk(y) && y' == DoCallNext(y) && y.cl.state == FACK_RECEIVED
    ensures var q, f := y.cpc.query, y.cpc.fnum;
      |q| > 0 && 1 <= f < NFrags(|q|) && QuerySent(y, y', Piece(QUERY, y.cl.seqno, q, f + 1))
  {}

  lemma CallNextOrder(y: System, y': System)
    requires OrderHeld(y) && CallNextOk(y) && y' == DoCallNext(y)
    requires InvHeld(y')
    ensures OrderInv(y')
  {
    assert Open(0);
    if y.cl.state == FACK_RECEIVED {
      CallNextSends(y, y');
      QuerySentOrder(y, y', Piece(QUERY, y.cl.seqno, y.cpc.query, y.cpc.fnum + 1));
    }
  }

  lemma CallFinishExact(y: System, rsize: nat, y': System)
    requires OrderInv(y) && CallFinishOk(y) && y' == DoCallFinish(y, rsize)
    ensures ExactOk(y'.cpc, y'.cl, y'.h)
  {}

  lemma CallFinishOrder(y: System, rsize: nat, y': System)
    requires OrderHeld(y) && CallFinishOk(y) && y' == DoCallFinish(y, rsize) && InvHeld(y')
    ensures OrderInv(y')
  {
    assert Open(0);
    CallFinishExact(y, rsize, y');
    assert y'.c2s == y.c2s && y'.s2c == y.s2c && y'.last == y.last && y'.spc == y.spc && y'.sv == y.sv;
  }

  /** The client sends something that takes no answer. */
  lemma ClientSendsOrder(y: System, y': System, a: seq<Msg>)
    requires OrderInv(y) && Inv(y') && Resent(a, y.c2s) && y'.c2s == y.c2s + a
    requires y'.s2c == y.s2c && y'.last == y.last && y'.spc == y.spc && y'.sv == y.sv && y'.h == y.h
    requires y'.cl.seqno == y.cl.seqno && (Expecting(y'.cl.state) ==> Expecting(y.cl.state))
    requires y'.cpc.WaitingResponse? && y'.cl.state == IDLE ==> y.cpc.WaitingResponse? && y.cl.state == IDLE && y'.cl.resp == y.cl.resp
    ensures OrderInv(y')
  {
    FragmentsTakenGrows(y.c2s, y.s2c, y.spc, y.sv, a);
    if Taken(y'.c2s, y.cl.seqno) { TakenBefore(y.c2s, a, y.cl.seqno); }
  }

  lemma DisconnectOrder(y: System, y': System)
    requires OrderHeld(y) && y' == DoDisconnect(y)
    requires InvHeld(y')
    ensures OrderInv(y')
  {
    assert Open(0);
    if y.clLive {
      ClientSendsOrder(y, y', [Control(DISCONNECT, y.cl.seqno, 1, 1)]);
    }
  }

  // ----- the timers -----------------------------------------------------------------------------

  lemma ClientTimerOrder(y: System, y': System)
    requires OrderHeld(y) && y' == DoClientTimer(y)
    requires InvHeld(y')
    ensures OrderInv(y')
  {
    assert Open(0);
    if y.clLive {
      TimerEffect(y.cl);
      ClientSendsOrder(y, y', Timer(y.cl).0.send);
    }
  }

  lemma ServerTimerOrder(y: System, y': System)
    requires OrderHeld(y) && y' == DoServerTimer(y)
    requires InvHeld(y')
    ensures OrderInv(y')
  {
    assert Open(0);
    if y.svLive {
      var (o, stays) := Timer(y.sv);
      TimerEffect(y.sv);
      if o.send == [] {
        ServerSilent(y.s2c, y.spc, y.sv, o);
      } else if o.send == Payload(y.sv) {
        ServerRepeats(y.s2c, y.spc, y.sv, o);
      } else {
        ServerNotes(y.s2c, y.spc, y.sv, o, o.send[0]);
      }
      ResponsesTaken(y.c2s, y.s2c, y.spc, y.sv, o.rec, o.send);
      StillPassed(y, o.send);
    }
  }

  // ----- runs -----------------------------------------------------------------------------------

  lemma NextOrder(y: System, p: Step)
    requires OrderInv(y) && Enabled(y, p) && (p.ToClient? ==> y.last <= p.i)
    ensures OrderInv(Next(y, p))
  {
    NextInv(y, p);
    if p.RespondStart? || p.RespondNext? || p.ToServer? || p.ToClient? || p.ClientTimer? || p.ServerTimer? {
      OthersOrder(y, p);
    } else {
      ClientOrder(y, p);
    }
    assert Open(0);
  }

  /** A thread only moves on. */
  lemma ThreadOrder(y: System, y': System)
    requires OrderHeld(y) && InvHeld(y') && (y'.cpc.WaitingResponse? ==> y'.cpc == y.cpc)
    requires y'.c2s == y.c2s && y'.s2c == y.s2c && y'.last == y.last && y'.cl == y.cl && y'.spc == y.spc && y'.sv == y.sv && y'.h == y.h
    ensures OrderInv(y')
  {
    assert Open(0);
  }

  lemma ClientOrder(y: System, p: Step)
    requires OrderHeld(y) && Enabled(y, p) && InvHeld(Next(y, p))
    requires p.ConnectDone? || p.CallStart? || p.CallNext? || p.CallFinish? || p.Disconnect? || p.DisconnectDone? || p.TakeQuery?
    ensures OrderHeld(Next(y, p))
  {
    match p
    case CallStart(q) => CallStartOrder(y, q, Next(y, p));
    case CallNext => CallNextOrder(y, Next(y, p));
    case CallFinish(rsize) => CallFinishOrder(y, rsize, Next(y, p));
    case Disconnect => DisconnectOrder(y, Next(y, p));
    case ConnectDone => ThreadOrder(y, Next(y, p));
    case DisconnectDone => ThreadOrder(y, Next(y, p));
    case TakeQuery => ThreadOrder(y, Next(y, p));
    case _ =>
  }

  lemma ToClientHeld(y: System, i: nat)
    requires OrderHeld(y) && y.last <= i < |y.s2c|
    ensures OrderHeld(DoToClient(y, i))
  {
    assert Open(0);
    ToClientOrder(y, i);
  }

  lemma WorkerHeld(y: System)
    requires OrderHeld(y)
    ensures OrderHeld(y.(spc := Free))
  {
    assert Open(0);
    WorkerGivesUpOrder(y);
  }

  lemma OthersOrder(y: System, p: Step)
    requires OrderHeld(y) && Enabled(y, p) && (p.ToClient? ==> y.last <= p.i) && InvHeld(Next(y, p))
    requires p.RespondStart? || p.RespondNext? || p.ToServer? || p.ToClient? || p.ClientTimer? || p.ServerTimer?
    ensures OrderHeld(Next(y, p))
  {
    match p
    case RespondStart(r) => RespondStartOrder(y, r, Next(y, p));
    case RespondNext =>
      if y.sv.state == FACK_RECEIVED { RespondNextOrder(y, Next(y, p), y.spc.response, y.spc.fnum); } else { WorkerHeld(y); }
    case ToServer(i) => ToServerOrder(y, i, Next(y, p));
    case ToClient(i) => ToClientHeld(y, i);
    case ClientTimer => ClientTimerOrder(y, Next(y, p));
    case ServerTimer => ServerTimerOrder(y, Next(y, p));
    case _ =>
  }

  lemma {:induction false} RunOrder(s0: nat, ps: seq<Step>, ys: seq<System>, n: nat)
    requires Run(s0, ps, ys) && InOrder(ps, ys) && n < |ys|
    ensures OrderInv(ys[n])
  {
    if n == 0 {
      StartInv(s0);
    } else {
      RunOrder(s0, ps, ys, n - 1);
      NextOrder(ys[n - 1], ps[n - 1]);
    }
  }
}
