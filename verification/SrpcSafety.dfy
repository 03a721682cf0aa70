/** What every step of the protocol keeps, on a network that loses, duplicates and reorders. */
module SrpcSafety {
  import opened SrpcRecord
  import opened SrpcSystem
  import opened Guards
  import opened Options
  import opened Octets

  // ----- fragments ------------------------------------------------------------------------------

  lemma NFragsBounds(len: nat)
    requires len > 0
    ensures FR_SIZE * (NFrags(len) - 1) < len <= FR_SIZE * NFrags(len)
  {}

  /** `m` carries its part of the bytes that `book` has under its sequence number. */
  ghost predicate IsPiece(m: Msg, book: map<nat, seq<byte>>) {
    m.seqno in book &&
    var q := book[m.seqno];
    && |q| > 0 && m.tlen == |q| && m.nfrags == NFrags(|q|) && 1 <= m.fnum <= m.nfrags
    && FR_SIZE * (m.fnum - 1) <= |q| && m.data == Chunk(q, m.fnum)
  }

  /** The buffer holds the first `f` fragments of `q` and has room for the rest. */
  ghost predicate Assembling(b: Option<Buf>, q: seq<byte>, f: nat) {
    && b.Some? && |q| > 0 && 1 <= f < NFrags(|q|) && b.value.tlen == |q| && |b.value.data| == |q|
    && FR_SIZE * f <= |q| && b.value.data[..FR_SIZE * f] == q[..FR_SIZE * f]
  }

  lemma FirstFragment(m: Msg, book: map<nat, seq<byte>>)
    requires IsPiece(m, book) && m.fnum == 1 && m.nfrags > 1
    ensures Assembling(Some(Alloc(m)), book[m.seqno], 1)
  {
    NFragsBounds(|book[m.seqno]|);
  }

  lemma NextFragment(b: Buf, m: Msg, book: map<nat, seq<byte>>, f: nat)
    requires IsPiece(m, book) && Assembling(Some(b), book[m.seqno], f) && m.fnum == f + 1 && m.fnum < m.nfrags
    ensures Fits(b, m) && Assembling(Some(Place(b, m)), book[m.seqno], f + 1)
  {
    var q := book[m.seqno];
    NFragsBounds(|q|);
    assert FR_SIZE * (f + 1) <= |q|;
    assert q[..FR_SIZE * (f + 1)] == q[..FR_SIZE * f] + m.data;
  }

  lemma LastFragment(b: Buf, m: Msg, book: map<nat, seq<byte>>, f: nat)
    requires IsPiece(m, book) && Assembling(Some(b), book[m.seqno], f) && m.fnum == f + 1 && m.fnum == m.nfrags
    ensures Fits(b, m) && Place(b, m) == Buf(|book[m.seqno]|, book[m.seqno])
  {
    var q := book[m.seqno];
    NFragsBounds(|q|);
    assert q == q[..FR_SIZE * f] + m.data;
  }

  lemma OnlyFragment(m: Msg, book: map<nat, seq<byte>>)
    requires IsPiece(m, book) && m.nfrags == 1
    ensures m.data == book[m.seqno]
  {
    NFragsBounds(|book[m.seqno]|);
  }

  lemma PieceIsPiece(final: Command, seqno: nat, book: map<nat, seq<byte>>, f: nat)
    requires seqno in book && |book[seqno]| > 0 && 1 <= f <= NFrags(|book[seqno]|)
    ensures IsPiece(Piece(final, seqno, book[seqno], f), book)
  {
    NFragsBounds(|book[seqno]|);
  }

  // ----- the invariant --------------------------------------------------------------------------

  ghost predicate Logged(h: History, s: nat) {
    exists i :: 0 <= i < |h.log| && h.log[i].seqno == s
  }

  ghost predicate Sized(q: seq<byte>) {
    1 <= |q| <= 0xFFFF
  }

  /** Each sequence number reaches the service queue at most once, in increasing order, with the
      bytes of the call. */
  ghost predicate QueueOk(h: History) {
    && (forall i, j :: 0 <= i < j < |h.log| ==> h.log[i].seqno < h.log[j].seqno)
    && (forall i :: 0 <= i < |h.log| ==>
          var s := h.log[i].seqno;
          s in h.calls && h.log[i].buf == Buf(|h.calls[s]|, h.calls[s]))
  }

  /** The payload is the response, or a long response's last fragment under the length of all of it. */
  ghost predicate ReplyOk(b: Buf, r: seq<byte>) {
    b == Buf(|r|, r) ||
    (|r| > FR_SIZE && FR_SIZE * (NFrags(|r|) - 1) <= |r| && b == Buf(|r|, Chunk(r, NFrags(|r|))))
  }

  ghost predicate HistoryOk(h: History) {
    && QueueOk(h)
    && (forall s :: s in h.calls ==> h.s0 < s && Sized(h.calls[s]))
    && h.asked <= h.calls.Keys
    && h.s0 <= h.reach && (h.reach == h.s0 || h.reach in h.calls)
    && (forall i :: 0 <= i < |h.log| ==> h.log[i].seqno in h.asked && h.log[i].seqno <= h.reach)
    && (forall s :: s in h.resps ==> Logged(h, s) && Sized(h.resps[s]))
    && h.done <= h.resps.Keys
    && (forall i :: 0 <= i < |h.replies| ==>
          h.replies[i].seqno in h.resps && ReplyOk(h.replies[i].buf, h.resps[h.replies[i].seqno]))
  }

  /** A packet the client may have sent. A multi-fragment QUERY is only under way once the server
      has moved to its sequence number. */
  ghost predicate ClientSent(m: Msg, h: History) {
    match m.cmd
    case CONNECT => m.seqno == h.s0
    case QUERY => IsPiece(m, h.calls) && m.fnum == m.nfrags && m.seqno in h.asked && (m.nfrags > 1 ==> m.seqno <= h.reach)
    case FRAGMENT => IsPiece(m, h.calls) && m.fnum < m.nfrags
    case RACK => m.seqno in h.done
    case FACK => m.seqno in h.resps
    case PING => true
    case PACK => true
    case DISCONNECT => true
    case DACK => true
    case _ => false
  }

  ghost predicate ServerSent(m: Msg, h: History) {
    match m.cmd
    case CACK => m.seqno == h.s0
    case QACK => Logged(h, m.seqno)
    case FRAGMENT => IsPiece(m, h.resps) && m.fnum < m.nfrags
    case RESPONSE => IsPiece(m, h.resps) && m.fnum == m.nfrags && m.seqno in h.done
    case FACK => m.seqno <= h.reach
    case DACK => true
    case PING => true
    case PACK => true
    case _ => false
  }

  ghost predicate NetworkOk(c2s: seq<Msg>, s2c: seq<Msg>, cpl: Option<Msg>, spl: Option<Msg>, h: History) {
    && (forall i :: 0 <= i < |c2s| ==> ClientSent(c2s[i], h))
    && (forall i :: 0 <= i < |s2c| ==> ServerSent(s2c[i], h))
    && (cpl.Some? ==> cpl.value in c2s)
    && (spl.Some? ==> spl.value in s2c)
  }

  predicate ClientState(s: State) {
    s == CONNECT_SENT || s == IDLE || s == FRAGMENT_SENT || s == FACK_RECEIVED || s == QUERY_SENT ||
    s == AWAITING_RESPONSE || s == FACK_SENT || s == TIMEDOUT || s == DISCONNECT_SENT
  }

  predicate ServerState(s: State) {
    s == IDLE || s == QACK_SENT || s == RESPONSE_SENT || s == TIMEDOUT || s == FRAGMENT_SENT || s == FACK_RECEIVED || s == FACK_SENT
  }

  predicate FragmentWait(s: State) {
    s == FRAGMENT_SENT || s == FACK_RECEIVED || s == TIMEDOUT
  }

  ghost predicate ClientThreadOk(cpc: ClientPc, cl: Rec, h: History) {
    match cpc
    case SendingQuery(q, f) =>
      && cl.seqno in h.calls && q == h.calls[cl.seqno] && |q| > 0 && 1 <= f < NFrags(|q|) && cl.seqno !in h.asked
      && FragmentWait(cl.state) && (cl.state == FACK_RECEIVED ==> cl.seqno <= h.reach)
    case WaitingResponse =>
      && cl.seqno in h.asked
      && (cl.state == IDLE ==> cl.seqno in h.resps && cl.resp.Some? && ReplyOk(cl.resp.value, h.resps[cl.seqno]))
    case _ => true
  }

  ghost predicate ClientOk(cpc: ClientPc, cl: Rec, h: History) {
    && h.s0 <= cl.seqno && (cl.seqno == h.s0 || cl.seqno in h.calls) && h.reach <= cl.seqno
    && (forall s :: s in h.calls ==> s <= cl.seqno)
    && ClientState(cl.state)
    && (cl.state == FACK_SENT ==> cl.seqno in h.resps && Assembling(cl.resp, h.resps[cl.seqno], cl.lastFrag))
    && ClientThreadOk(cpc, cl, h)
  }

  ghost predicate ServerThreadOk(spc: ServerPc, sv: Rec, h: History) {
    match spc
    case Free => true
    case SendingResponse(r, f) =>
      && sv.seqno in h.resps && r == h.resps[sv.seqno] && |r| > 0 && 1 <= f < NFrags(|r|) && sv.seqno !in h.done && FragmentWait(sv.state)
  }

  ghost predicate ServerOk(spc: ServerPc, sv: Rec, born: bool, live: bool, h: History) {
    && sv.seqno == h.reach
    && (if born then ServerState(sv.state) else !live && spc == Free && sv == Create(h.s0))
    && (sv.state == FACK_SENT ==>
          h.reach in h.calls && Assembling(sv.resp, h.calls[h.reach], sv.lastFrag) && !Logged(h, h.reach))
    && (sv.state == QACK_SENT ==> Logged(h, h.reach) && h.reach !in h.resps)
    && ServerThreadOk(spc, sv, h)
  }

  ghost predicate Inv(y: System) {
    && HistoryOk(y.h) && NetworkOk(y.c2s, y.s2c, y.cl.pl, y.sv.pl, y.h)
    && ClientOk(y.cpc, y.cl, y.h)
    && ServerOk(y.spc, y.sv, y.svBorn, y.svLive, y.h)
    && y.popped <= |y.h.log|
  }

  // ----- growing histories ----------------------------------------------------------------------

  ghost predicate SubMap(a: map<nat, seq<byte>>, b: map<nat, seq<byte>>) {
    forall s :: s in a ==> s in b && b[s] == a[s]
  }

  ghost predicate Grows(h: History, h': History) {
    && h'.s0 == h.s0 && h.reach <= h'.reach && h.log <= h'.log
    && SubMap(h.calls, h'.calls) && SubMap(h.resps, h'.resps) && h.asked <= h'.asked && h.done <= h'.done
  }

  /** The same, closed. */
  ghost predicate InvHeld(y: System) {
    forall z {:trigger Open(z)} :: Open(z) ==> Inv(y)
  }

  lemma LoggedGrows(h: History, h': History, s: nat)
    requires h.log <= h'.log && Logged(h, s)
    ensures Logged(h', s)
  {
    var i :| 0 <= i < |h.log| && h.log[i].seqno == s;
    assert h'.log[i] == h.log[i];
  }

  /** Packets sent before stay accounted for, and so do the new ones. */
  lemma NetworkGrows(c2s: seq<Msg>, s2c: seq<Msg>, cpl: Option<Msg>, spl: Option<Msg>, h: History,
                     a: seq<Msg>, b: seq<Msg>, cpl': Option<Msg>, spl': Option<Msg>, h': History)
    requires NetworkOk(c2s, s2c, cpl, spl, h) && Grows(h, h')
    requires forall i :: 0 <= i < |a| ==> ClientSent(a[i], h')
    requires forall i :: 0 <= i < |b| ==> ServerSent(b[i], h')
    requires cpl' == cpl || (cpl'.Some? && cpl'.value in a)
    requires spl' == spl || (spl'.Some? && spl'.value in b)
    ensures NetworkOk(c2s + a, s2c + b, cpl', spl', h')
  {
    forall i | 0 <= i < |c2s + a|
      ensures ClientSent((c2s + a)[i], h')
    {
      if i < |c2s| {
        assert ClientSent(c2s[i], h);
      } else {
        assert (c2s + a)[i] == a[i - |c2s|];
      }
    }
    forall i | 0 <= i < |s2c + b|
      ensures ServerSent((s2c + b)[i], h')
    {
      if i < |s2c| {
        assert ServerSent(s2c[i], h);
        if s2c[i].cmd == QACK { LoggedGrows(h, h', s2c[i].seqno); }
      } else {
        assert (s2c + b)[i] == b[i - |s2c|];
      }
    }
  }

  /** The same for two states of the system. */
  lemma SystemGrows(y: System, y': System, a: seq<Msg>, b: seq<Msg>)
    requires NetworkOk(y.c2s, y.s2c, y.cl.pl, y.sv.pl, y.h) && Grows(y.h, y'.h)
    requires y'.c2s == y.c2s + a && y'.s2c == y.s2c + b
    requires forall i :: 0 <= i < |a| ==> ClientSent(a[i], y'.h)
    requires forall i :: 0 <= i < |b| ==> ServerSent(b[i], y'.h)
    requires y'.cl.pl == y.cl.pl || (y'.cl.pl.Some? && y'.cl.pl.value in a)
    requires y'.sv.pl == y.sv.pl || (y'.sv.pl.Some? && y'.sv.pl.value in b)
    ensures NetworkOk(y'.c2s, y'.s2c, y'.cl.pl, y'.sv.pl, y'.h)
  {
    NetworkGrows(y.c2s, y.s2c, y.cl.pl, y.sv.pl, y.h, a, b, y'.cl.pl, y'.sv.pl, y'.h);
  }

  // ----- packets to the client ------------------------------------------------------------------

  /** What the client sends in answer is accounted for. */
  ghost predicate AnswersOk(o: Out, cl: Rec, h: History) {
    && o.enq == []
    && (forall i :: 0 <= i < |o.send| ==> ClientSent(o.send[i], h))
    && (o.rec.pl == cl.pl || (o.rec.pl.Some? && o.rec.pl.value in o.send))
  }

  lemma ClientTakesResponse(cpc: ClientPc, cl: Rec, h: History, m: Msg)
    requires HistoryOk(h) && ClientOk(cpc, cl, h) && ServerSent(m, h) && m.cmd == RESPONSE
    ensures var o := OnMsg(cl, m); ClientOk(cpc, o.rec, h) && AnswersOk(o, cl, h)
  {
    if m.seqno == cl.seqno {
      if cl.state == QUERY_SENT || cl.state == AWAITING_RESPONSE {
        if m.nfrags == 1 { OnlyFragment(m, h.resps); }
        NFragsBounds(|h.resps[m.seqno]|);
      } else if cl.state == FACK_SENT && m.fnum == cl.lastFrag + 1 {
        LastFragment(cl.resp.value, m, h.resps, cl.lastFrag);
      }
    }
  }

  lemma ClientTakesFragment(cpc: ClientPc, cl: Rec, h: History, m: Msg)
    requires HistoryOk(h) && ClientOk(cpc, cl, h) && ServerSent(m, h) && m.cmd == FRAGMENT
    requires cl.pl.Some? ==> ClientSent(cl.pl.value, h)
    ensures var o := OnMsg(cl, m); ClientOk(cpc, o.rec, h) && AnswersOk(o, cl, h)
  {
    assert m.seqno <= cl.seqno by {
      assert Logged(h, m.seqno);
    }
    ClientKeepsFragment(cpc, cl, h, m);
    FragmentAnswered(cpc, cl, h, m);
  }

  lemma FragmentAnswered(cpc: ClientPc, cl: Rec, h: History, m: Msg)
    requires HistoryOk(h) && ClientOk(cpc, cl, h) && ServerSent(m, h) && m.cmd == FRAGMENT && m.seqno <= cl.seqno
    requires cl.pl.Some? ==> ClientSent(cl.pl.value, h)
    ensures AnswersOk(OnFragment(cl, m), cl, h)
  {}

  lemma ClientKeepsFragment(cpc: ClientPc, cl: Rec, h: History, m: Msg)
    requires HistoryOk(h) && ClientOk(cpc, cl, h) && ServerSent(m, h) && m.cmd == FRAGMENT && m.seqno <= cl.seqno
    ensures ClientOk(cpc, OnFragment(cl, m).rec, h)
  {
    if m.seqno == cl.seqno {
      if (cl.state == QUERY_SENT || cl.state == AWAITING_RESPONSE) && m.fnum == 1 {
        FirstFragment(m, h.resps);
      } else if cl.state == FACK_SENT && m.fnum == cl.lastFrag + 1 {
        NextFragment(cl.resp.value, m, h.resps, cl.lastFrag);
      }
    }
  }

  /** A packet that only moves the record to another state. */
  lemma ClientMoves(cpc: ClientPc, cl: Rec, h: History, st: State)
    requires HistoryOk(h) && ClientOk(cpc, cl, h) && ClientState(st) && st != FACK_SENT
    requires cpc.SendingQuery? ==> FragmentWait(st) && (st == FACK_RECEIVED ==> cl.seqno <= h.reach)
    requires cpc.WaitingResponse? ==> st != IDLE
    ensures ClientOk(cpc, SetState(cl, st), h)
  {}

  lemma ClientTakesControl(cpc: ClientPc, cl: Rec, h: History, m: Msg)
    requires HistoryOk(h) && ClientOk(cpc, cl, h) && ServerSent(m, h)
    requires m.cmd == CACK || m.cmd == QACK || m.cmd == DACK || m.cmd == FACK
    ensures var o := OnMsg(cl, m); ClientOk(cpc, o.rec, h) && AnswersOk(o, cl, h)
  {
    if m.seqno == cl.seqno {
      match m.cmd
      case CACK => ClientMoves(cpc, cl, h, IDLE);
      case QACK => ClientMoves(cpc, cl, h, AWAITING_RESPONSE);
      case DACK => ClientMoves(cpc, cl, h, TIMEDOUT);
      case FACK => if cl.state == FRAGMENT_SENT { ClientMoves(cpc, cl, h, FACK_RECEIVED); }
      case _ =>
    }
  }

  lemma ClientTakes(cpc: ClientPc, cl: Rec, h: History, m: Msg)
    requires HistoryOk(h) && ClientOk(cpc, cl, h) && ServerSent(m, h)
    requires cl.pl.Some? ==> ClientSent(cl.pl.value, h)
    ensures var o := OnMsg(cl, m); ClientOk(cpc, o.rec, h) && AnswersOk(o, cl, h)
  {
    if m.cmd == RESPONSE {
      ClientTakesResponse(cpc, cl, h, m);
    } else if m.cmd == FRAGMENT {
      ClientTakesFragment(cpc, cl, h, m);
    } else if m.cmd == CACK || m.cmd == QACK || m.cmd == DACK || m.cmd == FACK {
      ClientTakesControl(cpc, cl, h, m);
    }
  }

  lemma ToClientInv(y: System, i: nat)
    requires Inv(y) && i < |y.s2c|
    ensures Inv(DoToClient(y, i))
  {
    var y' := DoToClient(y, i);
    if y.clLive {
      var o := OnMsg(y.cl, y.s2c[i]);
      ClientTakes(y.cpc, y.cl, y.h, y.s2c[i]);
      SystemGrows(y, y', o.send, []);
    } else {
      SystemGrows(y, y', [], []);
    }
  }

  // ----- packets to the server ------------------------------------------------------------------

  ghost function After(h: History, o: Out): History {
    h.(reach := o.rec.seqno, log := h.log + Items(o.rec.seqno, o.enq))
  }

  /** What handling a packet leaves behind on the server's side. */
  ghost predicate ServerTook(spc: ServerPc, sv: Rec, h: History, o: Out) {
    var h' := After(h, o);
    && HistoryOk(h') && ServerOk(spc, o.rec, true, true, h') && Grows(h, h')
    && (h'.reach == h.reach || h'.reach in h.calls)
    && (forall i :: 0 <= i < |o.send| ==> ServerSent(o.send[i], h'))
    && (o.rec.pl == sv.pl || (o.rec.pl.Some? && o.rec.pl.value in o.send))
  }

  /** A query enters the queue: the history stays in order. */
  lemma QueryLogged(h: History, s: nat, b: Buf)
    requires HistoryOk(h) && s in h.asked && b == Buf(|h.calls[s]|, h.calls[s]) && h.reach <= s && !Logged(h, s)
    ensures var h' := h.(reach := s, log := h.log + [Item(s, b)]); HistoryOk(h') && Grows(h, h') && Logged(h', s)
  {
    var h' := h.(reach := s, log := h.log + [Item(s, b)]);
    assert h'.log[|h.log|] == Item(s, b);
    forall i, j | 0 <= i < j < |h'.log|
      ensures h'.log[i].seqno < h'.log[j].seqno
    {
      assert h'.log[i] == h.log[i] && h.log[i].seqno <= h.reach;
    }
    forall t | t in h'.resps
      ensures Logged(h', t)
    {
      LoggedGrows(h, h', t);
    }
  }

  lemma NotLoggedYet(h: History, s: nat)
    requires HistoryOk(h) && h.reach < s
    ensures !Logged(h, s)
  {}

  lemma NoRespYet(h: History, s: nat)
    requires HistoryOk(h) && !Logged(h, s)
    ensures s !in h.resps
  {}

  lemma ItemsOne(s: nat, b: Buf)
    ensures Items(s, [b]) == [Item(s, b)]
  {}

  /** A query that is accepted, whichever way it came. */
  lemma QueryTook(spc: ServerPc, sv: Rec, r: Rec, h: History, m: Msg, b: Buf)
    requires HistoryOk(h) && m.seqno in h.asked && b == Buf(|h.calls[m.seqno]|, h.calls[m.seqno])
    requires h.reach <= m.seqno && !Logged(h, m.seqno) && spc == Free && r.seqno == m.seqno
    ensures ServerTook(spc, sv, h, QueryTaken(r, m, b))
  {
    QueryLogged(h, m.seqno, b);
    ItemsOne(m.seqno, b);
    NoRespYet(h, m.seqno);
  }

  lemma ServerTakesQuery(spc: ServerPc, sv: Rec, h: History, m: Msg)
    requires HistoryOk(h) && ServerOk(spc, sv, true, true, h) && ClientSent(m, h) && m.cmd == QUERY
    requires sv.pl.Some? ==> ServerSent(sv.pl.value, h)
    ensures ServerTook(spc, sv, h, OnMsg(sv, m))
  {
    if m.seqno == sv.seqno + 1 && (sv.state == IDLE || sv.state == RESPONSE_SENT) {
      OnlyFragment(m, h.calls);
      NotLoggedYet(h, m.seqno);
      QueryTook(spc, sv, sv.(seqno := m.seqno), h, m, Buf(m.tlen, m.data));
    } else if m.seqno == sv.seqno && sv.state == FACK_SENT && m.fnum == sv.lastFrag + 1 && m.fnum == m.nfrags {
      LastFragment(sv.resp.value, m, h.calls, sv.lastFrag);
      QueryTook(spc, sv, sv.(resp := None), h, m, Place(sv.resp.value, m));
    } else {
      ServerQuiet(spc, sv, h, OnMsg(sv, m));
    }
  }

  /** A packet that changes neither the sequence number nor the queue. */
  lemma ServerQuiet(spc: ServerPc, sv: Rec, h: History, o: Out)
    requires HistoryOk(h) && o.rec.seqno == h.reach && o.enq == [] && ServerOk(spc, o.rec, true, true, h)
    requires forall i :: 0 <= i < |o.send| ==> ServerSent(o.send[i], h)
    requires o.rec.pl == sv.pl || (o.rec.pl.Some? && o.rec.pl.value in o.send)
    ensures ServerTook(spc, sv, h, o)
  {
    assert After(h, o) == h;
  }

  /** The first fragment of a query moves the server to its sequence number. */
  lemma ReachMoves(h: History, s: nat)
    requires HistoryOk(h) && s in h.calls && h.reach < s
    ensures var h' := h.(reach := s); HistoryOk(h') && Grows(h, h') && !Logged(h', s)
  {
    var h' := h.(reach := s);
    NotLoggedYet(h, s);
    forall t | t in h'.resps
      ensures Logged(h', t)
    {
      LoggedGrows(h, h', t);
    }
  }

  lemma FirstFragmentTook(spc: ServerPc, sv: Rec, h: History, m: Msg)
    requires HistoryOk(h) && ServerOk(spc, sv, true, true, h) && IsPiece(m, h.calls) && m.fnum == 1 && m.nfrags > 1
    requires m.seqno == sv.seqno + 1 && (sv.state == IDLE || sv.state == RESPONSE_SENT)
    ensures ServerTook(spc, sv, h, FragmentTaken(sv.(seqno := m.seqno, resp := Some(Alloc(m))), m))
  {
    var o := FragmentTaken(sv.(seqno := m.seqno, resp := Some(Alloc(m))), m);
    FirstFragment(m, h.calls);
    ReachMoves(h, m.seqno);
    assert After(h, o) == h.(reach := m.seqno);
  }

  lemma NextFragmentTook(spc: ServerPc, sv: Rec, h: History, m: Msg)
    requires HistoryOk(h) && ServerOk(spc, sv, true, true, h) && IsPiece(m, h.calls) && m.fnum < m.nfrags
    requires m.seqno == sv.seqno && sv.state == FACK_SENT && m.fnum == sv.lastFrag + 1
    ensures ServerTook(spc, sv, h, FragmentTaken(sv.(resp := Some(Place(sv.resp.value, m))), m))
  {
    NextFragment(sv.resp.value, m, h.calls, sv.lastFrag);
    ServerQuiet(spc, sv, h, FragmentTaken(sv.(resp := Some(Place(sv.resp.value, m))), m));
  }

  lemma ServerTakesFragment(spc: ServerPc, sv: Rec, h: History, m: Msg)
    requires HistoryOk(h) && ServerOk(spc, sv, true, true, h) && ClientSent(m, h) && m.cmd == FRAGMENT
    requires sv.pl.Some? ==> ServerSent(sv.pl.value, h)
    ensures ServerTook(spc, sv, h, OnMsg(sv, m))
  {
    if (sv.state == IDLE || sv.state == RESPONSE_SENT) && m.seqno == sv.seqno + 1 && m.fnum == 1 {
      FirstFragmentTook(spc, sv, h, m);
    } else if m.seqno == sv.seqno && sv.state == FACK_SENT && m.fnum == sv.lastFrag + 1 {
      NextFragmentTook(spc, sv, h, m);
    } else {
      ServerQuiet(spc, sv, h, OnMsg(sv, m));
    }
  }

  lemma ServerTakesControl(spc: ServerPc, sv: Rec, h: History, m: Msg)
    requires HistoryOk(h) && ServerOk(spc, sv, true, true, h) && ClientSent(m, h) && m.cmd != QUERY && m.cmd != FRAGMENT
    requires sv.pl.Some? ==> ServerSent(sv.pl.value, h)
    ensures ServerTook(spc, sv, h, OnMsg(sv, m))
  {
    ServerQuiet(spc, sv, h, OnMsg(sv, m));
  }

  lemma ServerTakes(spc: ServerPc, sv: Rec, h: History, m: Msg)
    requires HistoryOk(h) && ServerOk(spc, sv, true, true, h) && ClientSent(m, h)
    requires sv.pl.Some? ==> ServerSent(sv.pl.value, h)
    ensures ServerTook(spc, sv, h, OnMsg(sv, m))
  {
    if m.cmd == QUERY {
      ServerTakesQuery(spc, sv, h, m);
    } else if m.cmd == FRAGMENT {
      ServerTakesFragment(spc, sv, h, m);
    } else {
      ServerTakesControl(spc, sv, h, m);
    }
  }

  lemma ToServerLiveInv(y: System, i: nat, o: Out)
    requires Inv(y) && i < |y.c2s| && y.svLive && o == OnMsg(y.sv, y.c2s[i])
    ensures Inv(y.(sv := o.rec, s2c := y.s2c + o.send, h := y.h.(reach := o.rec.seqno, log := y.h.log + Items(o.rec.seqno, o.enq))))
  {
    ServerTakes(y.spc, y.sv, y.h, y.c2s[i]);
    var y' := y.(sv := o.rec, s2c := y.s2c + o.send, h := y.h.(reach := o.rec.seqno, log := y.h.log + Items(o.rec.seqno, o.enq)));
    SystemGrows(y, y', [], o.send);
  }

  lemma ToServerInv(y: System, i: nat)
    requires Inv(y) && ToServerOk(y, i)
    ensures Inv(DoToServer(y, i))
  {
    var y' := DoToServer(y, i);
    var m := y.c2s[i];
    if y.svLive {
      ToServerLiveInv(y, i, OnMsg(y.sv, m));
    } else if m.cmd == CONNECT && !y.svBorn {
      SystemGrows(y, y', [], [Control(CACK, m.seqno, 1, 1)]);
    } else if m.cmd == DISCONNECT {
      SystemGrows(y, y', [], [Control(DACK, m.seqno, 1, 1)]);
    }
  }

  // ----- the threads ----------------------------------------------------------------------------

  /** The history with one more call. */
  lemma CallAdded(h: History, s: nat, q: seq<byte>)
    requires HistoryOk(h) && s !in h.calls && h.s0 < s && Sized(q)
    ensures var h' := h.(calls := h.calls[s := q]); HistoryOk(h') && Grows(h, h')
  {
    var h' := h.(calls := h.calls[s := q]);
    forall t | t in h'.resps
      ensures Logged(h', t)
    {
      LoggedGrows(h, h', t);
    }
  }

  lemma AskedAdded(h: History, s: nat)
    requires HistoryOk(h) && s in h.calls
    ensures var h' := h.(asked := h.asked + {s}); HistoryOk(h') && Grows(h, h')
  {
    var h' := h.(asked := h.asked + {s});
    forall t | t in h'.resps
      ensures Logged(h', t)
    {
      LoggedGrows(h, h', t);
    }
  }

  lemma ServerOkGrows(spc: ServerPc, sv: Rec, born: bool, live: bool, h: History, h': History)
    requires ServerOk(spc, sv, born, live, h)
    requires Grows(h, h') && h'.reach == h.reach && h'.log == h.log && h'.resps == h.resps && h'.done == h.done
    ensures ServerOk(spc, sv, born, live, h')
  {
    if sv.state == QACK_SENT { LoggedGrows(h, h', h.reach); }
    if sv.state == FACK_SENT && Logged(h', h.reach) { LoggedGrows(h', h, h.reach); }
  }

  /** What the client's thread relies on when it sends a piece of its query. */
  ghost predicate QueryInHand(y: System, q: seq<byte>) {
    && HistoryOk(y.h) && NetworkOk(y.c2s, y.s2c, y.cl.pl, y.sv.pl, y.h)
    && ServerOk(y.spc, y.sv, y.svBorn, y.svLive, y.h) && y.popped <= |y.h.log|
    && y.cl.seqno in y.h.calls && q == y.h.calls[y.cl.seqno] && |q| > 0 && y.cl.seqno !in y.h.asked
    && y.h.reach <= y.cl.seqno && forall s :: s in y.h.calls ==> s <= y.cl.seqno
  }

  lemma SendQueryFragmentInv(y: System, q: seq<byte>, f: nat)
    requires QueryInHand(y, q) && 1 <= f < NFrags(|q|)
    ensures Inv(SendQueryPiece(y, q, f))
  {
    var p := Piece(QUERY, y.cl.seqno, q, f);
    PieceIsPiece(QUERY, y.cl.seqno, y.h.calls, f);
    SystemGrows(y, SendQueryPiece(y, q, f), [p], []);
  }

  lemma LastQueryAsked(y: System, q: seq<byte>, h': History)
    requires QueryInHand(y, q) && h' == y.h.(asked := y.h.asked + {y.cl.seqno})
    ensures HistoryOk(h') && Grows(y.h, h') && ServerOk(y.spc, y.sv, y.svBorn, y.svLive, h')
  {
    AskedAdded(y.h, y.cl.seqno);
    ServerOkGrows(y.spc, y.sv, y.svBorn, y.svLive, y.h, h');
  }

  lemma LastQuerySent(y: System, q: seq<byte>, f: nat, h': History, p: Msg)
    requires QueryInHand(y, q) && f == NFrags(|q|) && (f > 1 ==> y.cl.seqno <= y.h.reach)
    requires h' == y.h.(asked := y.h.asked + {y.cl.seqno}) && p == Piece(QUERY, y.cl.seqno, q, f)
    ensures ClientSent(p, h')
  {
    PieceIsPiece(QUERY, y.cl.seqno, y.h.calls, f);
  }

  lemma SendQueryLastInv(y: System, q: seq<byte>, f: nat)
    requires QueryInHand(y, q) && f == NFrags(|q|) && (f > 1 ==> y.cl.seqno <= y.h.reach)
    ensures Inv(SendQueryPiece(y, q, f))
  {
    var h' := y.h.(asked := y.h.asked + {y.cl.seqno});
    var p := Piece(QUERY, y.cl.seqno, q, f);
    LastQueryAsked(y, q, h');
    LastQuerySent(y, q, f, h', p);
    NetworkGrows(y.c2s, y.s2c, y.cl.pl, y.sv.pl, y.h, [p], [], Some(p), y.sv.pl, h');
    assert y.s2c + [] == y.s2c;
  }

  lemma SendQueryPieceInv(y: System, q: seq<byte>, f: nat, y': System)
    requires QueryInHand(y, q) && 1 <= f <= NFrags(|q|) && (f > 1 ==> y.cl.seqno <= y.h.reach)
    requires y' == SendQueryPiece(y, q, f)
    ensures Inv(y')
  {
    if f < NFrags(|q|) {
      SendQueryFragmentInv(y, q, f);
    } else {
      SendQueryLastInv(y, q, f);
    }
  }

  /** A new call takes the next sequence number. */
  lemma NewCall(y: System, q: seq<byte>, s: nat, y1: System)
    requires Inv(y) && Sized(q) && s == y.cl.seqno + 1 && y1 == y.(cl := y.cl.(seqno := s), h := y.h.(calls := y.h.calls[s := q]))
    ensures QueryInHand(y1, q)
  {
    CallAdded(y.h, s, q);
    SystemGrows(y, y1, [], []);
    ServerOkGrows(y.spc, y.sv, y.svBorn, y.svLive, y.h, y1.h);
  }

  lemma FirstPieceInv(y: System, q: seq<byte>, s: nat, y1: System, y': System)
    requires Inv(y) && Sized(q) && s == y.cl.seqno + 1 && y1 == y.(cl := y.cl.(seqno := s), h := y.h.(calls := y.h.calls[s := q]))
    requires 1 <= NFrags(|q|) && y' == SendQueryPiece(y1, q, 1)
    ensures Inv(y')
  {
    NewCall(y, q, s, y1);
    SendQueryPieceInv(y1, q, 1, y');
  }

  lemma CallStartInv(y: System, q: seq<byte>, y': System)
    requires Inv(y) && CallStartOk(y, q) && y' == DoCallStart(y, q)
    ensures Inv(y')
  {
    if y.clLive && y.cl.state == IDLE {
      var s := y.cl.seqno + 1;
      FirstPieceInv(y, q, s, y.(cl := y.cl.(seqno := s), h := y.h.(calls := y.h.calls[s := q])), y');
    }
  }

  lemma CallGivesUpInv(y: System)
    requires Inv(y)
    ensures Inv(y.(cpc := Ready))
  {}

  /** The FACK of a fragment puts the next one in hand. */
  lemma NextPieceInHand(y: System)
    requires Inv(y) && y.cpc.SendingQuery? && y.cl.state == FACK_RECEIVED
    ensures QueryInHand(y, y.cpc.query) && y.cpc.fnum + 1 <= NFrags(|y.cpc.query|) && y.cl.seqno <= y.h.reach
  {}

  lemma CallNextInv(y: System, y': System)
    requires Inv(y) && CallNextOk(y) && y' == DoCallNext(y)
    ensures Inv(y')
  {
    if y.cl.state == TIMEDOUT {
      CallGivesUpInv(y);
    } else {
      NextPieceInHand(y);
      SendQueryPieceInv(y, y.cpc.query, y.cpc.fnum + 1, y');
    }
  }

  /** Replies play no part in the rest of the history. */
  lemma ReplyAdded(h: History, r: Reply)
    requires HistoryOk(h) && r.seqno in h.resps && ReplyOk(r.buf, h.resps[r.seqno])
    ensures var h' := h.(replies := h.replies + [r]); HistoryOk(h') && Grows(h, h')
  {
    var h' := h.(replies := h.replies + [r]);
    forall t | t in h'.resps
      ensures Logged(h', t)
    {
      LoggedGrows(h, h', t);
    }
  }

  lemma CallFinishInv(y: System, rsize: nat)
    requires Inv(y) && CallFinishOk(y)
    ensures Inv(DoCallFinish(y, rsize))
  {
    var y1 := y.(cpc := Ready, cl := y.cl.(resp := None));
    assert Inv(y1);
    if y.cl.state == IDLE && y.cl.resp.value.tlen <= rsize {
      var y2 := DoCallFinish(y, rsize);
      ReplyAdded(y.h, Reply(y.cl.seqno, y.cl.resp.value));
      ServerOkGrows(y.spc, y.sv, y.svBorn, y.svLive, y.h, y2.h);
      ClientOkGrows(y1.cpc, y1.cl, y.h, y2.h);
      SystemGrows(y1, y2, [], []);
    }
  }

  lemma DisconnectInv(y: System)
    requires Inv(y)
    ensures Inv(DoDisconnect(y))
  {
    if y.clLive {
      SystemGrows(y, DoDisconnect(y), [Control(DISCONNECT, y.cl.seqno, 1, 1)], []);
    }
  }

  lemma RespAdded(h: History, r: seq<byte>)
    requires HistoryOk(h) && Logged(h, h.reach) && h.reach !in h.resps && Sized(r)
    ensures var h' := h.(resps := h.resps[h.reach := r]); HistoryOk(h') && Grows(h, h')
  {
    var h' := h.(resps := h.resps[h.reach := r]);
    forall t | t in h'.resps
      ensures Logged(h', t)
    {
      LoggedGrows(h, h', t);
    }
  }

  lemma DoneAdded(h: History, s: nat)
    requires HistoryOk(h) && s in h.resps
    ensures var h' := h.(done := h.done + {s}); HistoryOk(h') && Grows(h, h')
  {
    var h' := h.(done := h.done + {s});
    forall t | t in h'.resps
      ensures Logged(h', t)
    {
      LoggedGrows(h, h', t);
    }
  }

  lemma ClientOkGrows(cpc: ClientPc, cl: Rec, h: History, h': History)
    requires ClientOk(cpc, cl, h)
    requires Grows(h, h') && h'.reach == h.reach && h'.calls == h.calls && h'.asked == h.asked
    ensures ClientOk(cpc, cl, h')
  {}

  /** What the worker thread relies on when it sends a piece of its response. */
  ghost predicate ResponseInHand(y: System, r: seq<byte>) {
    && HistoryOk(y.h) && NetworkOk(y.c2s, y.s2c, y.cl.pl, y.sv.pl, y.h)
    && ClientOk(y.cpc, y.cl, y.h) && y.popped <= |y.h.log|
    && y.svBorn && y.sv.seqno == y.h.reach && y.h.reach in y.h.resps && r == y.h.resps[y.h.reach]
    && |r| > 0 && y.h.reach !in y.h.done
  }

  lemma ResponsePieceServer(y: System, r: seq<byte>, f: nat)
    requires y.svBorn && y.sv.seqno == y.h.reach && y.h.reach in y.h.resps && r == y.h.resps[y.h.reach]
    requires |r| > 0 && y.h.reach !in y.h.done && 1 <= f <= NFrags(|r|)
    ensures var z := SendResponsePiece(y, r, f); ServerOk(z.spc, z.sv, z.svBorn, z.svLive, z.h)
  {}

  lemma ResponsePieceBooks(y: System, r: seq<byte>, f: nat)
    requires HistoryOk(y.h) && y.sv.seqno == y.h.reach && y.h.reach in y.h.resps && r == y.h.resps[y.h.reach]
    requires |r| > 0 && 1 <= f <= NFrags(|r|)
    ensures var z := SendResponsePiece(y, r, f);
      && HistoryOk(z.h) && Grows(y.h, z.h) && z.h == y.h.(done := z.h.done)
      && ServerSent(Piece(RESPONSE, y.sv.seqno, r, f), z.h)
  {
    PieceIsPiece(RESPONSE, y.sv.seqno, y.h.resps, f);
    if f == NFrags(|r|) { DoneAdded(y.h, y.sv.seqno); }
  }

  lemma SendResponsePieceInv(y: System, r: seq<byte>, f: nat, y': System)
    requires ResponseInHand(y, r) && 1 <= f <= NFrags(|r|)
    requires y' == SendResponsePiece(y, r, f)
    ensures Inv(y')
  {
    ResponsePieceServer(y, r, f);
    ResponsePieceBooks(y, r, f);
    SystemGrows(y, y', [], [Piece(RESPONSE, y.sv.seqno, r, f)]);
    ClientOkGrows(y.cpc, y.cl, y.h, y'.h);
  }

  lemma NewResponse(y: System, r: seq<byte>)
    requires Inv(y) && y.svLive && y.sv.state == QACK_SENT && Sized(r)
    ensures ResponseInHand(y.(h := y.h.(resps := y.h.resps[y.sv.seqno := r])), r)
  {
    var y1 := y.(h := y.h.(resps := y.h.resps[y.sv.seqno := r]));
    RespAdded(y.h, r);
    SystemGrows(y, y1, [], []);
    ClientOkGrows(y.cpc, y.cl, y.h, y1.h);
  }

  lemma RespondStartInv(y: System, r: seq<byte>)
    requires Inv(y) && RespondStartOk(y, r)
    ensures Inv(DoRespondStart(y, r))
  {
    if y.svLive && y.sv.state == QACK_SENT {
      NewResponse(y, r);
      NFragsBounds(|r|);
      SendResponsePieceInv(y.(h := y.h.(resps := y.h.resps[y.sv.seqno := r])), r, 1, DoRespondStart(y, r));
    }
  }

  lemma WorkerGivesUpInv(y: System)
    requires Inv(y)
    ensures Inv(y.(spc := Free))
  {}

  lemma NextResponseInHand(y: System, r: seq<byte>, f: nat)
    requires Inv(y) && y.spc == SendingResponse(r, f) && y.sv.state == FACK_RECEIVED
    ensures ResponseInHand(y, r) && f + 1 <= NFrags(|r|)
  {}

  lemma NextResponseInv(y: System, r: seq<byte>, f: nat, y': System)
    requires Inv(y) && y.spc == SendingResponse(r, f) && y.sv.state == FACK_RECEIVED && y' == DoRespondNext(y)
    ensures InvHeld(y')
  {
    NextResponseInHand(y, r, f);
    SendResponsePieceInv(y, r, f + 1, y');
  }

  lemma RespondNextInv(y: System, y': System)
    requires Inv(y) && RespondNextOk(y) && y' == DoRespondNext(y)
    ensures InvHeld(y')
  {
    if y.sv.state == TIMEDOUT {
      WorkerGivesUpInv(y);
    } else {
      NextResponseInv(y, y.spc.response, y.spc.fnum, y');
    }
  }

  // ----- the timers -----------------------------------------------------------------------------

  /** A scan changes counters only, except that it may set TIMEDOUT. */
  lemma TimerEffect(r: Rec)
    ensures var (o, stays) := Timer(r);
      && o.rec.seqno == r.seqno && o.rec.pl == r.pl && o.rec.resp == r.resp && o.rec.lastFrag == r.lastFrag
      && (o.rec.state == r.state || o.rec.state == TIMEDOUT) && o.enq == []
      && (o.send == [] || o.send == Payload(r) || o.send == [Control(PING, r.seqno, 1, 1)])
  {}

  lemma ClientTimerInv(y: System)
    requires Inv(y)
    ensures Inv(DoClientTimer(y))
  {
    if y.clLive {
      var (o, stays) := Timer(y.cl);
      TimerEffect(y.cl);
      SystemGrows(y, DoClientTimer(y), o.send, []);
    }
  }

  lemma ServerTimerInv(y: System)
    requires Inv(y)
    ensures Inv(DoServerTimer(y))
  {
    if y.svLive {
      var (o, stays) := Timer(y.sv);
      TimerEffect(y.sv);
      SystemGrows(y, DoServerTimer(y), [], o.send);
    }
  }

  // ----- runs -----------------------------------------------------------------------------------

  lemma StartInv(s0: nat)
    ensures Inv(Start(s0))
  {}

  lemma NextInv(y: System, p: Step)
    requires Inv(y) && Enabled(y, p)
    ensures Inv(Next(y, p))
  {
    StepInv(y, p);
    assert Open(0);
  }

  lemma StepInv(y: System, p: Step)
    requires Inv(y) && Enabled(y, p)
    ensures InvHeld(Next(y, p))
  {
    match p
    case ConnectDone =>
    case CallStart(q) => CallStartInv(y, q, Next(y, p));
    case CallNext => CallNextInv(y, Next(y, p));
    case CallFinish(rsize) => CallFinishInv(y, rsize);
    case Disconnect => DisconnectInv(y);
    case DisconnectDone =>
    case TakeQuery =>
    case RespondStart(r) => RespondStartInv(y, r);
    case RespondNext => RespondNextInv(y, Next(y, p));
    case ToServer(i) => ToServerInv(y, i);
    case ToClient(i) => ToClientInv(y, i);
    case ClientTimer => ClientTimerInv(y);
    case ServerTimer => ServerTimerInv(y);
  }

  lemma {:induction false} RunInv(s0: nat, ps: seq<Step>, ys: seq<System>, n: nat)
    requires Run(s0, ps, ys) && n < |ys|
    ensures Inv(ys[n])
  {
    if n == 0 {
      StartInv(s0);
    } else {
      RunInv(s0, ps, ys, n - 1);
      NextInv(ys[n - 1], ps[n - 1]);
    }
  }
}
