/** Messages and connection records of the SRPC protocol, and what one message or one timer scan
    does to a record: `srpc.c`, `crecord.c` and the per-record part of `ctable.c`. */
module SrpcRecord {
  import opened Options
  import opened Octets

  /** Constants of `srpcdefs.h`, `crecord.h` and `srpc.c`. */
  const ATTEMPTS := 7
  const TICKS := 2
  const FR_SIZE := 1024
  const TICKS_BETWEEN_PINGS := 3000
  const PINGS_BEFORE_PURGE := 3
  const SEQNO_LIMIT := 1_000_000_000

  datatype Command =
    | CONNECT | CACK | QUERY | QACK | RESPONSE | RACK | DISCONNECT | DACK
    | FRAGMENT | FACK | PING | PACK | SEQNO | SACK

  /** A packet. Control packets have no data; `flen` is the length of `data`. */
  datatype Msg = Msg(cmd: Command, seqno: nat, fnum: nat, nfrags: nat, tlen: nat, data: seq<byte>)

  function Control(cmd: Command, seqno: nat, fnum: nat, nfrags: nat): Msg {
    Msg(cmd, seqno, fnum, nfrags, 0, [])
  }

  datatype State =
    | UNSET | IDLE | QACK_SENT | RESPONSE_SENT | CONNECT_SENT | QUERY_SENT | AWAITING_RESPONSE | TIMEDOUT
    | DISCONNECT_SENT | FRAGMENT_SENT | FACK_RECEIVED | FACK_SENT | SEQNO_SENT

  /** A data payload in memory: the total length its header announces, and the bytes allocated. */
  datatype Buf = Buf(tlen: nat, data: seq<byte>)

  /** What a `memcpy` of `tlen` bytes out of the payload yields: `beyond` is the memory that follows
      the payload's own bytes. */
  function Copied(b: Buf, beyond: nat -> byte): seq<byte> {
    seq(b.tlen, i requires 0 <= i => if i < |b.data| then b.data[i] else beyond(i - |b.data|))
  }

  /** `struct c_record`, without the links of the table. */
  datatype Rec = Rec(
    seqno: nat, state: State, pl: Option<Msg>, resp: Option<Buf>, lastFrag: nat,
    nattempts: nat, ticks: nat, ticksLeft: nat, pingsTilPurge: nat, ticksTilPing: nat)

  /** What handling a packet does besides updating the record: packets sent, and payloads handed
      to the service queue. */
  datatype Out = Out(rec: Rec, send: seq<Msg>, enq: seq<Buf>)

  function Create(seqno: nat): Rec {
    Rec(seqno, UNSET, None, None, 0, 0, 0, 0, PINGS_BEFORE_PURGE, TICKS_BETWEEN_PINGS)
  }

  function SetState(r: Rec, state: State): Rec {
    r.(state := state, ticksTilPing := TICKS_BETWEEN_PINGS, pingsTilPurge := PINGS_BEFORE_PURGE)
  }

  function SetPayload(r: Rec, pl: Msg): Rec {
    r.(pl := Some(pl), nattempts := ATTEMPTS, ticks := TICKS, ticksLeft := TICKS)
  }

  function Payload(r: Rec): seq<Msg> {
    if r.pl.Some? then [r.pl.value] else []
  }

  // ----- fragments ------------------------------------------------------------------------------

  function Min(a: nat, b: nat): nat {
    if a <= b then a else b
  }

  /** `(len - 1) / FR_SIZE + 1` */
  function NFrags(len: nat): nat
    requires len > 0
  {
    (len - 1) / FR_SIZE + 1
  }

  /** The bytes that fragment `f` of `q` carries. */
  function Chunk(q: seq<byte>, f: nat): seq<byte>
    requires 1 <= f && FR_SIZE * (f - 1) <= |q|
  {
    q[FR_SIZE * (f - 1) .. Min(FR_SIZE * f, |q|)]
  }

  /** The buffer allocated for the first fragment: `tlen` bytes, the fragment copied to the front. */
  function Alloc(m: Msg): Buf {
    Buf(m.tlen, if |m.data| <= m.tlen then m.data + Zeros(m.tlen - |m.data|) else m.data)
  }

  predicate Fits(b: Buf, m: Msg) {
    m.fnum >= 1 && FR_SIZE * (m.fnum - 1) + |m.data| <= |b.data|
  }

  /** `memcpy` of a fragment to its place. Outside the buffer nothing is defined; no run gets there. */
  function Place(b: Buf, m: Msg): Buf {
    if Fits(b, m) then
      var at := FR_SIZE * (m.fnum - 1);
      b.(data := b.data[..at] + m.data + b.data[at + |m.data|..])
    else b
  }

  // ----- the reader's switch --------------------------------------------------------------------

  function Keep(r: Rec): Out {
    Out(r, [], [])
  }

  function OnConnect(r: Rec, m: Msg): Out {
    if r.state == IDLE then Out(SetState(r, IDLE), Payload(r), []) else Keep(r)
  }

  /** A CONNECT without a record: one is made and answers with CACK. */
  function Accept(m: Msg): Out {
    var p := Control(CACK, m.seqno, 1, 1);
    Out(SetState(SetPayload(Create(m.seqno), p), IDLE), [p], [])
  }

  function OnCack(r: Rec, m: Msg): Out {
    if m.seqno == r.seqno then Out(SetState(r, IDLE), [], []) else Keep(r)
  }

  function QueryTaken(r: Rec, m: Msg, b: Buf): Out {
    var cp := Control(QACK, m.seqno, m.fnum, m.nfrags);
    Out(SetState(SetPayload(r, cp), QACK_SENT), [cp], [b])
  }

  function OnQuery(r: Rec, m: Msg): Out {
    if m.seqno == r.seqno + 1 && (r.state == IDLE || r.state == RESPONSE_SENT) then
      QueryTaken(r.(seqno := m.seqno), m, Buf(m.tlen, m.data))
    else if m.seqno == r.seqno && r.state == FACK_SENT && m.fnum == r.lastFrag + 1 && m.fnum == m.nfrags && r.resp.Some? then
      QueryTaken(r.(resp := None), m, Place(r.resp.value, m))
    else if m.seqno == r.seqno && (r.state == QACK_SENT || r.state == RESPONSE_SENT) then
      Out(SetState(r, r.state), Payload(r), [])
    else Keep(r)
  }

  function OnQack(r: Rec, m: Msg): Out {
    if m.seqno == r.seqno then Out(SetState(r, AWAITING_RESPONSE), [], []) else Keep(r)
  }

  function ResponseTaken(r: Rec, m: Msg): Out {
    var cp := Control(RACK, m.seqno, m.fnum, m.nfrags);
    Out(SetState(SetPayload(r, cp), IDLE), [cp], [])
  }

  function OnResponse(r: Rec, m: Msg): Out {
    if m.seqno != r.seqno then Keep(r)
    else if r.state == QUERY_SENT || r.state == AWAITING_RESPONSE then
      ResponseTaken(r.(resp := Some(Buf(m.tlen, m.data))), m)
    else if r.state == FACK_SENT && m.fnum == r.lastFrag + 1 && m.fnum == m.nfrags && r.resp.Some? then
      ResponseTaken(r.(resp := Some(Place(r.resp.value, m)), lastFrag := m.fnum), m)
    else Keep(r)
  }

  function OnRack(r: Rec, m: Msg): Out {
    if m.seqno == r.seqno then Out(SetState(r, IDLE), [], []) else Keep(r)
  }

  function OnDisconnect(r: Rec, m: Msg): Out {
    Out(SetState(r, TIMEDOUT), [Control(DACK, m.seqno, 1, 1)], [])
  }

  function OnDack(r: Rec, m: Msg): Out {
    if m.seqno == r.seqno then Out(SetState(r, TIMEDOUT), [], []) else Keep(r)
  }

  function FragmentTaken(r: Rec, m: Msg): Out {
    var cp := Control(FACK, m.seqno, m.fnum, m.nfrags);
    Out(SetState(SetPayload(r.(lastFrag := m.fnum), cp), FACK_SENT), [cp], [])
  }

  function OnFragment(r: Rec, m: Msg): Out {
    var isQ := (r.state == IDLE || r.state == RESPONSE_SENT) && m.seqno == r.seqno + 1 && m.fnum == 1;
    var isR := (r.state == QUERY_SENT || r.state == AWAITING_RESPONSE) && m.seqno == r.seqno && m.fnum == 1;
    if isQ || isR then
      FragmentTaken(r.(seqno := m.seqno, resp := Some(Alloc(m))), m)
    else if m.seqno == r.seqno && r.state == FACK_SENT && m.fnum == r.lastFrag + 1 && r.resp.Some? then
      FragmentTaken(r.(resp := Some(Place(r.resp.value, m))), m)
    else if m.seqno == r.seqno && r.state == FACK_SENT && m.fnum == r.lastFrag then
      Out(SetState(r, r.state), Payload(r), [])
    else Keep(r)
  }

  function OnFack(r: Rec, m: Msg): Out {
    if m.seqno == r.seqno && r.state == FRAGMENT_SENT && m.fnum == r.lastFrag then
      Out(SetState(r, FACK_RECEIVED), [], [])
    else Keep(r)
  }

  function OnSeqno(r: Rec, m: Msg): Out {
    if r.state == IDLE || r.state == RESPONSE_SENT then
      var cp := Control(SACK, m.seqno, 1, 1);
      Out(SetState(SetPayload(r, cp).(seqno := m.seqno), IDLE), [cp], [])
    else Keep(r)
  }

  function OnSack(r: Rec): Out {
    if r.state == SEQNO_SENT then Out(SetState(r, IDLE), [], []) else Keep(r)
  }

  /** The reader's switch for a packet whose record exists. */
  function OnMsg(r: Rec, m: Msg): Out {
    match m.cmd
    case CONNECT => OnConnect(r, m)
    case CACK => OnCack(r, m)
    case QUERY => OnQuery(r, m)
    case QACK => OnQack(r, m)
    case RESPONSE => OnResponse(r, m)
    case RACK => OnRack(r, m)
    case DISCONNECT => OnDisconnect(r, m)
    case DACK => OnDack(r, m)
    case FRAGMENT => OnFragment(r, m)
    case FACK => OnFack(r, m)
    case PING => Out(r, [Control(PACK, m.seqno, 1, 1)], [])
    case PACK => Out(SetState(r, r.state), [], [])
    case SEQNO => OnSeqno(r, m)
    case SACK => OnSack(r)
  }

  // ----- the timer's scan -----------------------------------------------------------------------

  datatype Action = NOTHING | RETRY | TIMED | PINGED | PURGE

  /** `unsigned short` arithmetic. */
  function Dec16(x: nat): nat {
    if x == 0 then 0xFFFF else x - 1
  }

  function Double16(x: nat): nat {
    2 * x % 0x1_0000
  }

  predicate Sending(s: State) {
    s == CONNECT_SENT || s == QUERY_SENT || s == RESPONSE_SENT || s == DISCONNECT_SENT || s == FRAGMENT_SENT || s == SEQNO_SENT
  }

  /** What `ctable_scan` does with one record: which list it is threaded onto, if any. */
  function Scan(r: Rec): (Rec, Action) {
    if r.state == TIMEDOUT then (r, PURGE)
    else if Sending(r.state) then
      var r1 := r.(ticksLeft := Dec16(r.ticksLeft));
      if r1.ticksLeft > 0 then (r1, NOTHING)
      else
        var r2 := r1.(nattempts := Dec16(r1.nattempts));
        if r2.nattempts == 0 then (r2, TIMED)
        else (r2.(ticks := Double16(r2.ticks), ticksLeft := Double16(r2.ticks)), RETRY)
    else
      var r1 := r.(ticksTilPing := Dec16(r.ticksTilPing));
      if r1.ticksTilPing > 0 then (r1, NOTHING)
      else
        var r2 := r1.(pingsTilPurge := Dec16(r1.pingsTilPurge));
        if r2.pingsTilPurge == 0 then (r2, TIMED)
        else (r2.(ticksTilPing := TICKS_BETWEEN_PINGS), PINGED)
  }

  /** A pass of `timer` over one record: the record, the packets sent, and whether it stays. */
  function Timer(r: Rec): (Out, bool) {
    var (r', a) := Scan(r);
    match a
    case NOTHING => (Keep(r'), true)
    case RETRY => (Out(r', Payload(r'), []), true)
    case TIMED => (Keep(SetState(r', TIMEDOUT)), true)
    case PINGED => (Out(r', [Control(PING, r'.seqno, 1, 1)], []), true)
    case PURGE => (Keep(r'), false)
  }
}
