/** One client record, one server record and a network that keeps every packet ever sent and
    delivers any of them at any time, any number of times or never. The API calls are cut at
    each wait for a state; the table mutex makes each piece atomic. */
module SrpcSystem {
  import opened SrpcRecord
  import opened Options
  import opened Octets

  /** Where the client's thread is in `rpc_connect`, `rpc_call` or `rpc_disconnect`. */
  datatype ClientPc =
    | Connecting
    | Ready
    | SendingQuery(query: seq<byte>, fnum: nat)   // waits for the FACK of fragment `fnum`
    | WaitingResponse
    | Disconnecting
    | Closed

  /** Where a server's worker thread is in `rpc_response`. */
  datatype ServerPc = Free | SendingResponse(response: seq<byte>, fnum: nat)

  /** A payload on the service queue; `seqno` is the sequence number it was taken at. */
  datatype Item = Item(seqno: nat, buf: Buf)

  /** A return of `rpc_call` with result 1, for the call with this sequence number: `buf` is the
      payload that the response was copied from, as many bytes as its header announces. */
  datatype Reply = Reply(seqno: nat, buf: Buf)

  /** What has happened so far. `asked` holds the calls whose final QUERY was sent, `done` those
      whose final RESPONSE was sent, `reach` is the server's sequence number, and `log` is
      everything ever put on the service queue. */
  datatype History = History(
    s0: nat, calls: map<nat, seq<byte>>, asked: set<nat>, reach: nat, log: seq<Item>,
    resps: map<nat, seq<byte>>, done: set<nat>, replies: seq<Reply>)

  /** `last` is the index of the server's packet delivered most recently. */
  datatype System = System(
    cpc: ClientPc, cl: Rec, clLive: bool,
    spc: ServerPc, sv: Rec, svBorn: bool, svLive: bool, popped: nat,
    c2s: seq<Msg>, s2c: seq<Msg>, last: nat, h: History)

  /** After the first part of `rpc_connect`. */
  function Start(s0: nat): System {
    var p := Control(CONNECT, s0, 1, 1);
    System(Connecting, SetState(SetPayload(Create(s0), p), CONNECT_SENT), true,
           Free, Create(s0), false, false, 0,
           [p], [], 0, History(s0, map[], {}, s0, [], map[], {}, []))
  }

  /** The packet for fragment `f` of `q`; the last one is a QUERY or a RESPONSE. */
  function Piece(final: Command, seqno: nat, q: seq<byte>, f: nat): Msg
    requires |q| > 0 && 1 <= f <= NFrags(|q|)
  {
    var n := NFrags(|q|);
    Msg(if f < n then FRAGMENT else final, seqno, f, n, |q|, Chunk(q, f))
  }

  datatype Step =
    | ConnectDone
    | CallStart(query: seq<byte>)
    | CallNext
    | CallFinish(rsize: nat)
    | Disconnect
    | DisconnectDone
    | TakeQuery
    | RespondStart(response: seq<byte>)
    | RespondNext
    | ToServer(i: nat)
    | ToClient(i: nat)
    | ClientTimer
    | ServerTimer

  // ----- the client's thread --------------------------------------------------------------------

  predicate ConnectDoneOk(y: System) {
    y.cpc == Connecting && (y.cl.state == IDLE || y.cl.state == TIMEDOUT)
  }

  function DoConnectDone(y: System): System {
    if y.cl.state == TIMEDOUT then y.(cpc := Closed, clLive := false) else y.(cpc := Ready)
  }

  /** Sends fragment `f` of the query and leaves the thread waiting for its answer. */
  function SendQueryPiece(y: System, q: seq<byte>, f: nat): System
    requires |q| > 0 && 1 <= f <= NFrags(|q|)
  {
    var p := Piece(QUERY, y.cl.seqno, q, f);
    if f < NFrags(|q|) then
      y.(cl := SetState(SetPayload(y.cl.(lastFrag := f), p), FRAGMENT_SENT),
         cpc := SendingQuery(q, f), c2s := y.c2s + [p])
    else
      y.(cl := SetState(SetPayload(y.cl, p), QUERY_SENT),
         cpc := WaitingResponse, c2s := y.c2s + [p], h := y.h.(asked := y.h.asked + {y.cl.seqno}))
  }

  /** Calls of 1 to 65535 bytes, below the limit where sequence numbers start over. */
  predicate CallStartOk(y: System, q: seq<byte>) {
    y.cpc == Ready && 1 <= |q| <= 0xFFFF && y.cl.seqno < SEQNO_LIMIT
  }

  function DoCallStart(y: System, q: seq<byte>): System
    requires |q| > 0
  {
    if !y.clLive || y.cl.state != IDLE then y
    else
      var s := y.cl.seqno + 1;
      SendQueryPiece(y.(cl := y.cl.(seqno := s), h := y.h.(calls := y.h.calls[s := q])), q, 1)
  }

  predicate CallNextOk(y: System) {
    y.cpc.SendingQuery? && (y.cl.state == FACK_RECEIVED || y.cl.state == TIMEDOUT)
  }

  function DoCallNext(y: System): System
    requires y.cpc.SendingQuery?
  {
    if y.cl.state == TIMEDOUT then y.(cpc := Ready)
    else if |y.cpc.query| > 0 && y.cpc.fnum + 1 <= NFrags(|y.cpc.query|) then
      SendQueryPiece(y, y.cpc.query, y.cpc.fnum + 1)
    else y
  }

  predicate CallFinishOk(y: System) {
    y.cpc == WaitingResponse && (y.cl.state == IDLE || y.cl.state == TIMEDOUT)
  }

  /** The end of `rpc_call`; the response is copied out if its announced length fits the caller's
      buffer. Whether the payload holds that many bytes is not looked at. */
  function DoCallFinish(y: System, rsize: nat): System {
    var y1 := y.(cpc := Ready, cl := y.cl.(resp := None));
    if y.cl.state == IDLE && y.cl.resp.Some? && y.cl.resp.value.tlen <= rsize then
      y1.(h := y.h.(replies := y.h.replies + [Reply(y.cl.seqno, y.cl.resp.value)]))
    else y1
  }

  function DoDisconnect(y: System): System {
    if !y.clLive then y
    else
      var p := Control(DISCONNECT, y.cl.seqno, 1, 1);
      y.(cl := SetState(SetPayload(y.cl, p), DISCONNECT_SENT), cpc := Disconnecting, c2s := y.c2s + [p])
  }

  predicate DisconnectDoneOk(y: System) {
    y.cpc == Disconnecting && y.cl.state == TIMEDOUT
  }

  // ----- the server's threads -------------------------------------------------------------------

  predicate RespondStartOk(y: System, r: seq<byte>) {
    y.spc == Free && 1 <= |r| <= 0xFFFF
  }

  function SendResponsePiece(y: System, r: seq<byte>, f: nat): System
    requires |r| > 0 && 1 <= f <= NFrags(|r|)
  {
    var p := Piece(RESPONSE, y.sv.seqno, r, f);
    if f < NFrags(|r|) then
      y.(sv := SetState(SetPayload(y.sv.(lastFrag := f), p), FRAGMENT_SENT),
         spc := SendingResponse(r, f), s2c := y.s2c + [p])
    else
      y.(sv := SetState(SetPayload(y.sv, p), RESPONSE_SENT),
         spc := Free, s2c := y.s2c + [p], h := y.h.(done := y.h.done + {y.sv.seqno}))
  }

  function DoRespondStart(y: System, r: seq<byte>): System
    requires |r| > 0
  {
    if !y.svLive || y.sv.state != QACK_SENT then y
    else SendResponsePiece(y.(h := y.h.(resps := y.h.resps[y.sv.seqno := r])), r, 1)
  }

  predicate RespondNextOk(y: System) {
    y.spc.SendingResponse? && (y.sv.state == FACK_RECEIVED || y.sv.state == TIMEDOUT)
  }

  function DoRespondNext(y: System): System
    requires y.spc.SendingResponse?
  {
    if y.sv.state == TIMEDOUT then y.(spc := Free)
    else if |y.spc.response| > 0 && y.spc.fnum + 1 <= NFrags(|y.spc.response|) then
      SendResponsePiece(y, y.spc.response, y.spc.fnum + 1)
    else y
  }

  // ----- the network ----------------------------------------------------------------------------

  function Items(seqno: nat, enq: seq<Buf>): seq<Item> {
    seq(|enq|, i requires 0 <= i < |enq| => Item(seqno, enq[i]))
  }

  /** A purged server record is not made anew: a late CONNECT starts another lifetime. */
  predicate ToServerOk(y: System, i: nat) {
    i < |y.c2s| && (y.c2s[i].cmd == CONNECT && y.svBorn ==> y.svLive)
  }

  function DoToServer(y: System, i: nat): System
    requires i < |y.c2s|
  {
    var m := y.c2s[i];
    if y.svLive then
      var o := OnMsg(y.sv, m);
      y.(sv := o.rec, s2c := y.s2c + o.send,
         h := y.h.(reach := o.rec.seqno, log := y.h.log + Items(o.rec.seqno, o.enq)))
    else if m.cmd == CONNECT && !y.svBorn then
      var o := Accept(m);
      y.(sv := o.rec, svBorn := true, svLive := true, s2c := y.s2c + o.send)
    else if m.cmd == DISCONNECT then
      y.(s2c := y.s2c + [Control(DACK, m.seqno, 1, 1)])
    else y
  }

  function DoToClient(y: System, i: nat): System
    requires i < |y.s2c|
  {
    var y1 := y.(last := i);
    if y.clLive then
      var o := OnMsg(y.cl, y.s2c[i]);
      y1.(cl := o.rec, c2s := y.c2s + o.send)
    else y1
  }

  // ----- the timers -----------------------------------------------------------------------------

  function DoClientTimer(y: System): System {
    if !y.clLive then y
    else
      var (o, stays) := Timer(y.cl);
      y.(cl := o.rec, clLive := stays, c2s := y.c2s + o.send)
  }

  function DoServerTimer(y: System): System {
    if !y.svLive then y
    else
      var (o, stays) := Timer(y.sv);
      y.(sv := o.rec, svLive := stays, s2c := y.s2c + o.send)
  }

  // ----- runs -----------------------------------------------------------------------------------

  predicate Enabled(y: System, p: Step) {
    match p
    case ConnectDone => ConnectDoneOk(y)
    case CallStart(q) => CallStartOk(y, q)
    case CallNext => CallNextOk(y)
    case CallFinish(_) => CallFinishOk(y)
    case Disconnect => y.cpc == Ready
    case DisconnectDone => DisconnectDoneOk(y)
    case TakeQuery => y.popped < |y.h.log|
    case RespondStart(r) => RespondStartOk(y, r)
    case RespondNext => RespondNextOk(y)
    case ToServer(i) => ToServerOk(y, i)
    case ToClient(i) => i < |y.s2c|
    case ClientTimer => true
    case ServerTimer => true
  }

  function Next(y: System, p: Step): System
    requires Enabled(y, p)
  {
    match p
    case ConnectDone => DoConnectDone(y)
    case CallStart(q) => DoCallStart(y, q)
    case CallNext => DoCallNext(y)
    case CallFinish(rsize) => DoCallFinish(y, rsize)
    case Disconnect => DoDisconnect(y)
    case DisconnectDone => y.(cpc := Closed)
    case TakeQuery => y.(popped := y.popped + 1)
    case RespondStart(r) => DoRespondStart(y, r)
    case RespondNext => DoRespondNext(y)
    case ToServer(i) => DoToServer(y, i)
    case ToClient(i) => DoToClient(y, i)
    case ClientTimer => DoClientTimer(y)
    case ServerTimer => DoServerTimer(y)
  }

  /** `ys` is a run: it starts after `rpc_connect` sent its packet, and `ps` are its steps. */
  ghost predicate Run(s0: nat, ps: seq<Step>, ys: seq<System>) {
    && |ys| == |ps| + 1 && ys[0] == Start(s0)
    && forall i :: 0 <= i < |ps| ==> Enabled(ys[i], ps[i]) && ys[i + 1] == Next(ys[i], ps[i])
  }

  /** No packet of the server overtakes an earlier one on its way to the client. */
  ghost predicate InOrder(ps: seq<Step>, ys: seq<System>)
    requires |ys| == |ps| + 1
  {
    forall i :: 0 <= i < |ps| && ps[i].ToClient? ==> ys[i].last <= ps[i].i
  }
}
