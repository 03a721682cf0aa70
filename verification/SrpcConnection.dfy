/** The connection record as the program keeps it: an object whose fields the reader and the timer
    update in place. Each operation is proved to do what `SrpcRecord` says. */
module SrpcConnection {
  import opened SrpcRecord
  import SrpcSystem
  import opened Options
  import opened Octets

  /** The record after fragment `f`, the packet `p`, was sent from it. */
  function PieceSent(r: Rec, p: Msg, f: nat, more: bool, sent: State): Rec {
    if more then SetState(SetPayload(r.(lastFrag := f), p), FRAGMENT_SENT) else SetState(SetPayload(r, p), sent)
  }

  /** Cuts fragment `f` out of `q`; `more` tells whether others follow. */
  method MakePiece(final: Command, seqno: nat, q: seq<byte>, f: nat) returns (p: Msg, more: bool)
    requires |q| > 0 && 1 <= f <= NFrags(|q|)
    ensures p == SrpcSystem.Piece(final, seqno, q, f) && (more <==> f < NFrags(|q|))
  {
    var nfrags := (|q| - 1) / FR_SIZE + 1;
    var at := FR_SIZE * (f - 1);
    more := f < nfrags;
    if more {
      p := Msg(FRAGMENT, seqno, f, nfrags, |q|, q[at..at + FR_SIZE]);
    } else {
      var blen := |q| - FR_SIZE * (nfrags - 1);
      p := Msg(final, seqno, f, nfrags, |q|, q[at..at + blen]);
    }
  }

  /** `memcpy` */
  method CopyInto(into: array<byte>, size: nat, from: seq<byte>)
    requires size == |from| <= into.Length
    modifies into
    ensures into[..size] == from && into[size..] == old(into[size..])
  {
    for i := 0 to size
      invariant into[..i] == from[..i] && into[size..] == old(into[size..])
    {
      into[i] := from[i];
    }
  }

  class CRecord {
    const bucket: nat         // the hash of the endpoint
    var next: CRecord?        // in its bucket
    var link: CRecord?        // on one of the timer's lists
    var seqno: nat
    var state: State
    var pl: Option<Msg>
    var resp: Option<Buf>
    var lastFrag: nat
    var nattempts: nat
    var ticks: nat
    var ticksLeft: nat
    var pingsTilPurge: nat
    var ticksTilPing: nat

    function View(): Rec
      reads this`seqno, this`state, this`pl, this`resp, this`lastFrag, this`nattempts, this`ticks,
            this`ticksLeft, this`pingsTilPurge, this`ticksTilPing
    {
      Rec(seqno, state, pl, resp, lastFrag, nattempts, ticks, ticksLeft, pingsTilPurge, ticksTilPing)
    }

    constructor (bucket: nat, seqno: nat)
      ensures View() == Create(seqno) && this.bucket == bucket && next == null && link == null
    {
      this.bucket, this.next, this.link := bucket, null, null;
      this.seqno, this.state, this.pl, this.resp, this.lastFrag := seqno, UNSET, None, None, 0;
      this.nattempts, this.ticks, this.ticksLeft := 0, 0, 0;
      this.pingsTilPurge, this.ticksTilPing := PINGS_BEFORE_PURGE, TICKS_BETWEEN_PINGS;
    }

    method SetState(s: State)
      modifies this`state, this`ticksTilPing, this`pingsTilPurge
      ensures View() == SrpcRecord.SetState(old(View()), s)
    {
      state := s;
      ticksTilPing := TICKS_BETWEEN_PINGS;
      pingsTilPurge := PINGS_BEFORE_PURGE;
    }

    method SetPayload(p: Msg)
      modifies this`pl, this`nattempts, this`ticks, this`ticksLeft
      ensures View() == SrpcRecord.SetPayload(old(View()), p)
    {
      pl := Some(p);
      nattempts := ATTEMPTS;
      ticks := TICKS;
      ticksLeft := TICKS;
    }

    /** Answers a packet with a control packet, which stays the record's payload. */
    method Answer(cp: Msg, s: State) returns (send: seq<Msg>)
      modifies this`state, this`pl, this`nattempts, this`ticks, this`ticksLeft, this`pingsTilPurge, this`ticksTilPing
      ensures View() == SrpcRecord.SetState(SrpcRecord.SetPayload(old(View()), cp), s) && send == [cp]
    {
      SetPayload(cp);
      send := [cp];
      SetState(s);
    }

    /** Sends the payload again. */
    method Repeat() returns (send: seq<Msg>)
      modifies this`state, this`ticksTilPing, this`pingsTilPurge
      ensures View() == SrpcRecord.SetState(old(View()), old(state)) && send == Payload(old(View()))
    {
      send := if pl.Some? then [pl.value] else [];
      SetState(state);
    }

    method TakeQuery(m: Msg) returns (send: seq<Msg>, enq: seq<Buf>)
      modifies this`seqno, this`state, this`pl, this`resp, this`nattempts, this`ticks, this`ticksLeft, this`pingsTilPurge, this`ticksTilPing
      ensures Out(View(), send, enq) == OnQuery(old(View()), m)
    {
      send, enq := [], [];
      var st := state;
      if m.seqno == seqno + 1 && (st == IDLE || st == RESPONSE_SENT) {
        seqno := m.seqno;
        send := Answer(Control(QACK, m.seqno, m.fnum, m.nfrags), QACK_SENT);
        enq := [Buf(m.tlen, m.data)];
      } else if m.seqno == seqno && st == FACK_SENT && m.fnum == lastFrag + 1 && m.fnum == m.nfrags && resp.Some? {
        var p := Place(resp.value, m);
        resp := None;
        send := Answer(Control(QACK, m.seqno, m.fnum, m.nfrags), QACK_SENT);
        enq := [p];
      } else if m.seqno == seqno && (st == QACK_SENT || st == RESPONSE_SENT) {
        send := Repeat();
      }
    }

    method TakeResponse(m: Msg) returns (send: seq<Msg>)
      modifies this`state, this`pl, this`resp, this`lastFrag, this`nattempts, this`ticks, this`ticksLeft, this`pingsTilPurge, this`ticksTilPing
      ensures Out(View(), send, []) == OnResponse(old(View()), m)
    {
      send := [];
      if m.seqno != seqno { return; }
      var st := state;
      if st == QUERY_SENT || st == AWAITING_RESPONSE {
        resp := Some(Buf(m.tlen, m.data));
      } else if st == FACK_SENT && m.fnum == lastFrag + 1 && m.fnum == m.nfrags && resp.Some? {
        resp := Some(Place(resp.value, m));
        lastFrag := m.fnum;
      } else {
        return;
      }
      send := Answer(Control(RACK, m.seqno, m.fnum, m.nfrags), IDLE);
    }

    method TakeFragment(m: Msg) returns (send: seq<Msg>)
      modifies this`seqno, this`state, this`pl, this`resp, this`lastFrag, this`nattempts, this`ticks, this`ticksLeft, this`pingsTilPurge, this`ticksTilPing
      ensures Out(View(), send, []) == OnFragment(old(View()), m)
    {
      send := [];
      var st := state;
      var isQ := (st == IDLE || st == RESPONSE_SENT) && m.seqno == seqno + 1 && m.fnum == 1;
      var isR := (st == QUERY_SENT || st == AWAITING_RESPONSE) && m.seqno == seqno && m.fnum == 1;
      if isQ || isR {
        seqno := m.seqno;
        resp := Some(Alloc(m));
      } else if m.seqno == seqno && st == FACK_SENT && m.fnum == lastFrag + 1 && resp.Some? {
        resp := Some(Place(resp.value, m));
      } else {
        if m.seqno == seqno && st == FACK_SENT && m.fnum == lastFrag {
          send := Repeat();
        }
        return;
      }
      lastFrag := m.fnum;
      send := Answer(Control(FACK, m.seqno, m.fnum, m.nfrags), FACK_SENT);
    }

    /** The packets that at most move the record to another state. */
    method TakeControl(m: Msg) returns (send: seq<Msg>)
      requires m.cmd != QUERY && m.cmd != RESPONSE && m.cmd != FRAGMENT
      modifies this`seqno, this`state, this`pl, this`nattempts, this`ticks, this`ticksLeft, this`pingsTilPurge, this`ticksTilPing
      ensures Out(View(), send, []) == OnMsg(old(View()), m)
    {
      send := [];
      match m.cmd
      case CONNECT => if state == IDLE { send := Repeat(); }
      case CACK => if m.seqno == seqno { SetState(IDLE); }
      case QACK => if m.seqno == seqno { SetState(AWAITING_RESPONSE); }
      case RACK => if m.seqno == seqno { SetState(IDLE); }
      case DISCONNECT =>
        send := [Control(DACK, m.seqno, 1, 1)];
        SetState(TIMEDOUT);
      case DACK => if m.seqno == seqno { SetState(TIMEDOUT); }
      case FACK => if m.seqno == seqno && state == FRAGMENT_SENT && m.fnum == lastFrag { SetState(FACK_RECEIVED); }
      case PING => send := [Control(PACK, m.seqno, 1, 1)];
      case PACK => SetState(state);
      case SEQNO =>
        if state == IDLE || state == RESPONSE_SENT {
          var cp := Control(SACK, m.seqno, 1, 1);
          SetPayload(cp);
          send := [cp];
          seqno := m.seqno;
          SetState(IDLE);
        }
      case SACK => if state == SEQNO_SENT { SetState(IDLE); }
    }

    /** The reader's switch: what it does to the record, sends and queues. */
    method Handle(m: Msg) returns (send: seq<Msg>, enq: seq<Buf>)
      modifies this
      ensures Out(View(), send, enq) == OnMsg(old(View()), m)
      ensures next == old(next) && link == old(link)
    {
      enq := [];
      match m.cmd
      case QUERY => send, enq := TakeQuery(m);
      case RESPONSE => send := TakeResponse(m);
      case FRAGMENT => send := TakeFragment(m);
      case _ => send := TakeControl(m);
    }

    /** The body of the scan's inner loop, apart from the threading. */
    method Count() returns (a: Action)
      modifies this`nattempts, this`ticks, this`ticksLeft, this`pingsTilPurge, this`ticksTilPing
      ensures (View(), a) == Scan(old(View()))
    {
      a := NOTHING;
      if state == TIMEDOUT {
        a := PURGE;
      } else if Sending(state) {
        ticksLeft := Dec16(ticksLeft);
        if ticksLeft <= 0 {
          nattempts := Dec16(nattempts);
          if nattempts <= 0 {
            a := TIMED;
          } else {
            ticks := Double16(ticks);
            ticksLeft := ticks;
            a := RETRY;
          }
        }
      } else {
        ticksTilPing := Dec16(ticksTilPing);
        if ticksTilPing <= 0 {
          pingsTilPurge := Dec16(pingsTilPurge);
          if pingsTilPurge <= 0 {
            a := TIMED;
          } else {
            ticksTilPing := TICKS_BETWEEN_PINGS;
            a := PINGED;
          }
        }
      }
    }

    // ----- the pieces of the API calls, cut where they wait --------------------------------------

    /** The body of the fragment loops of `rpc_call` and `rpc_response`, and what follows them. */
    method SendPiece(final: Command, sent: State, q: seq<byte>, f: nat) returns (send: seq<Msg>)
      requires |q| > 0 && 1 <= f <= NFrags(|q|)
      modifies this`lastFrag, this`state, this`pl, this`nattempts, this`ticks, this`ticksLeft, this`pingsTilPurge, this`ticksTilPing
      ensures send == [SrpcSystem.Piece(final, seqno, q, f)] && View() == PieceSent(old(View()), send[0], f, f < NFrags(|q|), sent)
    {
      var p, more := MakePiece(final, seqno, q, f);
      send := SendPacket(p, f, more, sent);
    }

    method SendPacket(p: Msg, f: nat, more: bool, sent: State) returns (send: seq<Msg>)
      modifies this`lastFrag, this`state, this`pl, this`nattempts, this`ticks, this`ticksLeft, this`pingsTilPurge, this`ticksTilPing
      ensures send == [p] && View() == PieceSent(old(View()), p, f, more, sent)
    {
      if more {
        lastFrag := f;
        send := Answer(p, FRAGMENT_SENT);
      } else {
        send := Answer(p, sent);
      }
    }

    /** The first piece of `rpc_call`, for a record that is in the table. */
    method BeginCall(q: seq<byte>) returns (begun: bool, send: seq<Msg>)
      requires 1 <= |q| <= 0xFFFF && seqno < SEQNO_LIMIT
      modifies this
      ensures next == old(next) && link == old(link)
      ensures forall y: SrpcSystem.System :: y.clLive && y.cl == old(View()) ==>
        var y' := SrpcSystem.DoCallStart(y, q); View() == y'.cl && y'.c2s == y.c2s + send && (begun <==> y' != y)
    {
      send := [];
      if state != IDLE {
        return false, [];
      }
      begun := true;
      seqno := seqno + 1;
      send := SendPiece(QUERY, QUERY_SENT, q, 1);
    }

    /** The first piece of `rpc_response`. */
    method BeginResponse(q: seq<byte>) returns (begun: bool, send: seq<Msg>)
      requires 1 <= |q| <= 0xFFFF
      modifies this
      ensures next == old(next) && link == old(link)
      ensures forall y: SrpcSystem.System :: y.svLive && y.sv == old(View()) ==>
        var y' := SrpcSystem.DoRespondStart(y, q); View() == y'.sv && y'.s2c == y.s2c + send
    {
      send := [];
      if state != QACK_SENT {
        return false, [];
      }
      begun := true;
      send := SendPiece(RESPONSE, RESPONSE_SENT, q, 1);
    }

    /** The rest of the fragment loop of `rpc_call`, after the wait for the FACK of fragment `f`. */
    method ContinueCall(q: seq<byte>, f: nat) returns (send: seq<Msg>)
      requires |q| > 0 && 1 <= f < NFrags(|q|) && (state == FACK_RECEIVED || state == TIMEDOUT)
      modifies this`lastFrag, this`state, this`pl, this`nattempts, this`ticks, this`ticksLeft, this`pingsTilPurge, this`ticksTilPing
      ensures forall y: SrpcSystem.System :: y.cl == old(View()) && y.cpc == SrpcSystem.SendingQuery(q, f) ==>
        var y' := SrpcSystem.DoCallNext(y); View() == y'.cl && y'.c2s == y.c2s + send
    {
      send := [];
      if state != TIMEDOUT {
        send := SendPiece(QUERY, QUERY_SENT, q, f + 1);
      }
    }

    /** The end of `rpc_call`: the response, if there is one whose announced length fits, copied
        into the caller's buffer. `beyond` is the memory behind the payload. */
    method FinishCall(into: array<byte>, beyond: nat -> byte) returns (ok: bool, rlen: nat)
      requires state == IDLE || state == TIMEDOUT
      modifies this`resp, into
      ensures forall y: SrpcSystem.System :: y.cl == old(View()) ==>
        var y' := SrpcSystem.DoCallFinish(y, into.Length);
        && View() == y'.cl && (ok ==> y.cl.resp.Some?)
        && y'.h.replies == y.h.replies + if ok then [SrpcSystem.Reply(seqno, y.cl.resp.value)] else []
      ensures ok ==>
        && old(resp).Some? && rlen == old(resp).value.tlen <= into.Length
        && into[..rlen] == Copied(old(resp).value, beyond) && into[rlen..] == old(into[rlen..])
      ensures !ok ==> into[..] == old(into[..])
    {
      var buf := resp;
      resp := None;
      ok, rlen := false, 0;
      if state == IDLE && buf.Some? && buf.value.tlen <= into.Length {
        rlen := buf.value.tlen;
        CopyInto(into, rlen, Copied(buf.value, beyond));
        ok := true;
      }
    }

    /** The rest of the fragment loop of `rpc_response`. */
    method ContinueResponse(q: seq<byte>, f: nat) returns (send: seq<Msg>)
      requires |q| > 0 && 1 <= f < NFrags(|q|) && (state == FACK_RECEIVED || state == TIMEDOUT)
      modifies this`lastFrag, this`state, this`pl, this`nattempts, this`ticks, this`ticksLeft, this`pingsTilPurge, this`ticksTilPing
      ensures forall y: SrpcSystem.System :: y.sv == old(View()) && y.spc == SrpcSystem.SendingResponse(q, f) ==>
        var y' := SrpcSystem.DoRespondNext(y); View() == y'.sv && y'.s2c == y.s2c + send
    {
      send := [];
      if state != TIMEDOUT {
        send := SendPiece(RESPONSE, RESPONSE_SENT, q, f + 1);
      }
    }
  }
}
