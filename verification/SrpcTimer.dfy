/** When the timer repeats, pings and gives up. */
module SrpcTimer {
  import opened SrpcRecord
  import opened SrpcSystem
  import opened Powers
  import opened Options
  import opened Octets

  // ----- repeated scans -------------------------------------------------------------------------

  function Iterate<T>(f: T -> T, x: T, k: nat): T {
    if k == 0 then x else f(Iterate(f, x, k - 1))
  }

  /** How many of `x`, `f(x)`, ..., the first `k` of them, have the property. */
  function Tally<T>(f: T -> T, p: T -> bool, x: T, k: nat): nat {
    if k == 0 then 0 else Tally(f, p, x, k - 1) + if p(Iterate(f, x, k - 1)) then 1 else 0
  }

  lemma {:induction false} IterateSplit<T>(f: T -> T, x: T, j: nat, k: nat)
    ensures Iterate(f, x, j + k) == Iterate(f, Iterate(f, x, j), k)
  {
    if k > 0 {
      IterateSplit(f, x, j, k - 1);
    }
  }

  lemma {:induction false} TallySplit<T>(f: T -> T, p: T -> bool, x: T, j: nat, k: nat)
    ensures Tally(f, p, x, j + k) == Tally(f, p, x, j) + Tally(f, p, Iterate(f, x, j), k)
  {
    if k > 0 {
      TallySplit(f, p, x, j, k - 1);
      IterateSplit(f, x, j, k - 1);
    }
  }

  lemma {:induction false} TallyNone<T>(f: T -> T, p: T -> bool, x: T, k: nat)
    requires forall j :: 0 <= j < k ==> !p(Iterate(f, x, j))
    ensures Tally(f, p, x, k) == 0
  {
    if k > 0 { TallyNone(f, p, x, k - 1); }
  }

  /** A countdown through `n` periods, the first of `t` steps and each next one `next` of the one
      before: nothing within a period, `again` at the end of each but the last, TIMED at the end. */
  ghost predicate Period<T>(f: T -> T, act: T -> Action, again: Action, armed: (T, nat, nat) -> bool, next: nat -> nat, x: T, n: nat, t: nat) {
    && n >= 1 && t >= 1
    && (forall j :: 0 <= j < t - 1 ==> act(Iterate(f, x, j)) == NOTHING)
    && act(Iterate(f, x, t - 1)) == (if n == 1 then TIMED else again)
    && (n > 1 ==> armed(Iterate(f, x, t), n - 1, next(t)))
  }

  ghost predicate CountsDown<T(!new)>(f: T -> T, act: T -> Action, again: Action, armed: (T, nat, nat) -> bool, next: nat -> nat) {
    forall x, n, t {:trigger Period(f, act, again, armed, next, x, n, t)} :: armed(x, n, t) ==> Period(f, act, again, armed, next, x, n, t)
  }

  /** The number of steps in the first `n` periods. */
  function Total(next: nat -> nat, t: nat, n: nat): nat
    decreases n
  {
    if n == 0 then 0 else t + Total(next, next(t), n - 1)
  }

  /** Step `k` is the last one of a period that is not the last period. */
  ghost predicate PeriodEnd(next: nat -> nat, t: nat, n: nat, k: nat) {
    exists i :: 1 <= i < n && k == Total(next, t, i)
  }

  lemma {:induction false} TotalAtLeast(next: nat -> nat, t: nat, n: nat)
    requires n >= 1
    ensures Total(next, t, n) >= t
  {}

  lemma PeriodEndShift(next: nat -> nat, t: nat, n: nat, k: nat)
    requires n >= 1 && t >= 1 && k >= 1
    ensures PeriodEnd(next, t, n, k) <==> (k == t && n > 1) || (k > t && PeriodEnd(next, next(t), n - 1, k - t))
  {
    assert Total(next, t, 1) == t;
    if PeriodEnd(next, t, n, k) {
      var i :| 1 <= i < n && k == Total(next, t, i);
      if k != t {
        assert i > 1 && k - t == Total(next, next(t), i - 1);
      }
    }
    if k > t && PeriodEnd(next, next(t), n - 1, k - t) {
      var i :| 1 <= i < n - 1 && k - t == Total(next, next(t), i);
      assert k == Total(next, t, i + 1);
    }
  }

  lemma {:induction false} CountdownSchedule<T(!new)>(f: T -> T, act: T -> Action, again: Action, armed: (T, nat, nat) -> bool, next: nat -> nat, x: T, n: nat, t: nat, k: nat)
    requires CountsDown(f, act, again, armed, next) && armed(x, n, t) && 1 <= k <= Total(next, t, n) && again in {RETRY, PINGED}
    ensures act(Iterate(f, x, k - 1)) ==
      if k == Total(next, t, n) then TIMED else if PeriodEnd(next, t, n, k) then again else NOTHING
    decreases n
  {
    assert Period(f, act, again, armed, next, x, n, t);
    PeriodEndShift(next, t, n, k);
    TotalAtLeast(next, t, n);
    if k <= t {
      if n > 1 {
        assert Period(f, act, again, armed, next, Iterate(f, x, t), n - 1, next(t));
        TotalAtLeast(next, next(t), n - 1);
      }
    } else {
      IterateSplit(f, x, t, k - t - 1);
      CountdownSchedule(f, act, again, armed, next, Iterate(f, x, t), n - 1, next(t), k - t);
    }
  }

  lemma {:induction false} CountdownTally<T(!new)>(f: T -> T, act: T -> Action, again: Action, armed: (T, nat, nat) -> bool, next: nat -> nat, p: T -> bool, x: T, n: nat, t: nat)
    requires CountsDown(f, act, again, armed, next) && armed(x, n, t) && again in {RETRY, PINGED}
    requires forall y :: p(y) <==> act(y) == again
    ensures Tally(f, p, x, Total(next, t, n)) == n - 1
    decreases n
  {
    assert Period(f, act, again, armed, next, x, n, t);
    TallyNone(f, p, x, t - 1);
    assert Tally(f, p, x, t) == if n > 1 then 1 else 0;
    if n > 1 {
      var rest := Total(next, next(t), n - 1);
      CountdownTally(f, act, again, armed, next, p, Iterate(f, x, t), n - 1, next(t));
      TallySplit(f, p, x, t, rest);
    }
  }

  function Tick(r: Rec): Rec {
    Timer(r).0.rec
  }

  function Act(r: Rec): Action {
    Scan(r).1
  }

  predicate Repeats(r: Rec) {
    Act(r) == RETRY
  }

  /** What scan number `k` (from 1) does. */
  function ActionAt(r: Rec, k: nat): Action
    requires k >= 1
  {
    Act(Iterate(Tick, r, k - 1))
  }

  // ----- unanswered records ---------------------------------------------------------------------

  /** A record that waits for an answer, armed with `n` attempts and `t` ticks, whose last interval
      is still a 16-bit number. */
  predicate Armed(r: Rec, n: nat, t: nat) {
    Sending(r.state) && r.nattempts == n && r.ticks == t && r.ticksLeft == t && n >= 1 && t >= 1 && t * Pow2(n - 1) < 0x1_0000
  }

  function Twice(t: nat): nat {
    2 * t
  }

  /** Until its ticks have run down, a scan only counts. */
  lemma {:induction false} Countdown(r: Rec, n: nat, t: nat, j: nat)
    requires Armed(r, n, t) && j < t
    ensures Iterate(Tick, r, j) == r.(ticksLeft := t - j)
    ensures j + 1 < t ==> Act(Iterate(Tick, r, j)) == NOTHING
  {
    if j > 0 {
      Countdown(r, n, t, j - 1);
    }
  }

  /** Then it repeats with twice the ticks, or gives up. */
  lemma RunsDown(r: Rec, n: nat, t: nat)
    requires Armed(r, n, t)
    ensures Act(Iterate(Tick, r, t - 1)) == if n == 1 then TIMED else RETRY
    ensures n > 1 ==> Armed(Iterate(Tick, r, t), n - 1, 2 * t)
  {
    Countdown(r, n, t, t - 1);
    IterateLast(Tick, r, t);
    LastScan(r, n, t, Iterate(Tick, r, t - 1), Iterate(Tick, r, t));
  }

  lemma LastScan(r: Rec, n: nat, t: nat, x: Rec, y: Rec)
    requires Armed(r, n, t) && x == r.(ticksLeft := 1) && y == Tick(x)
    ensures Act(x) == if n == 1 then TIMED else RETRY
    ensures n > 1 ==> Armed(y, n - 1, 2 * t)
  {
    if n > 1 {
      NextBound(t, n);
    }
    LastTick(x, n, t);
  }

  lemma IterateLast<T>(f: T -> T, x: T, k: nat)
    requires k >= 1
    ensures Iterate(f, x, k) == f(Iterate(f, x, k - 1))
  {}

  /** If the last of `n` intervals fits, so does the second, and the last one counted from there. */
  lemma NextBound(t: nat, n: nat)
    requires n > 1 && t * Pow2(n - 1) < 0x1_0000
    ensures 2 * t < 0x1_0000 && (2 * t) * Pow2(n - 2) < 0x1_0000
  {
    var p := Pow2(n - 2);
    assert t * (2 * p) == 2 * t * p;
    assert 2 * t <= 2 * t * p;
  }

  lemma LastTick(r: Rec, n: nat, t: nat)
    requires Sending(r.state) && r.nattempts == n && r.ticks == t && r.ticksLeft == 1 && n >= 1 && t >= 1 && (n > 1 ==> 2 * t < 0x1_0000)
    ensures Act(r) == if n == 1 then TIMED else RETRY
    ensures n > 1 ==> Tick(r) == r.(nattempts := n - 1, ticks := 2 * t, ticksLeft := 2 * t)
  {}

  lemma PayloadCountsDown()
    ensures CountsDown(Tick, Act, RETRY, Armed, Twice)
  {
    forall r: Rec, n: nat, t: nat | Armed(r, n, t)
      ensures Period(Tick, Act, RETRY, Armed, Twice, r, n, t)
    {
      forall j | 0 <= j < t - 1
        ensures Act(Iterate(Tick, r, j)) == NOTHING
      {
        Countdown(r, n, t, j);
      }
      RunsDown(r, n, t);
    }
  }

  lemma {:induction false} TwiceTotal(t: nat, n: nat)
    ensures Total(Twice, t, n) == t * (Pow2(n) - 1)
    decreases n
  {
    if n > 0 {
      TwiceTotal(2 * t, n - 1);
    }
  }

  /** t * (2^i - 1) for some i below n. */
  ghost predicate RetryAt(t: nat, n: nat, k: nat) {
    exists i :: 1 <= i < n && k == t * (Pow2(i) - 1)
  }

  lemma TwicePeriodEnd(t: nat, n: nat, k: nat)
    ensures PeriodEnd(Twice, t, n, k) <==> RetryAt(t, n, k)
  {
    if PeriodEnd(Twice, t, n, k) {
      var i :| 1 <= i < n && k == Total(Twice, t, i);
      TwiceTotal(t, i);
      assert k == t * (Pow2(i) - 1);
    }
    if RetryAt(t, n, k) {
      var i :| 1 <= i < n && k == t * (Pow2(i) - 1);
      TwiceTotal(t, i);
      assert k == Total(Twice, t, i);
    }
  }

  lemma DoublingSchedule<T(!new)>(f: T -> T, act: T -> Action, armed: (T, nat, nat) -> bool, x: T, n: nat, t: nat, k: nat)
    requires CountsDown(f, act, RETRY, armed, Twice) && armed(x, n, t) && 1 <= k <= t * (Pow2(n) - 1)
    ensures act(Iterate(f, x, k - 1)) ==
      if k == t * (Pow2(n) - 1) then TIMED
      else if RetryAt(t, n, k) then RETRY
      else NOTHING
  {
    TwiceTotal(t, n);
    CountdownSchedule(f, act, RETRY, armed, Twice, x, n, t, k);
    TwicePeriodEnd(t, n, k);
  }

  /** An unanswered record is repeated at the scans t, 3t, 7t, ..., and declared timed out at
      exactly scan t * (2^n - 1). */
  lemma PayloadSchedule(r: Rec, n: nat, t: nat, k: nat)
    requires Armed(r, n, t) && 1 <= k <= t * (Pow2(n) - 1)
    ensures ActionAt(r, k) ==
      if k == t * (Pow2(n) - 1) then TIMED
      else if RetryAt(t, n, k) then RETRY
      else NOTHING
  {
    PayloadCountsDown();
    DoublingSchedule(Tick, Act, Armed, r, n, t, k);
  }

  lemma {:induction false} StillWaiting(r: Rec, n: nat, t: nat, k: nat)
    requires Armed(r, n, t) && k < t * (Pow2(n) - 1)
    ensures Iterate(Tick, r, k).pl == r.pl && Iterate(Tick, r, k).state == r.state && Iterate(Tick, r, k).seqno == r.seqno
  {
    if k > 0 {
      StillWaiting(r, n, t, k - 1);
      PayloadSchedule(r, n, t, k);
    }
  }

  /** And what goes out at those scans, and at no other, is its payload. */
  lemma PayloadSent(r: Rec, n: nat, t: nat, k: nat, p: Msg)
    requires Armed(r, n, t) && 1 <= k <= t * (Pow2(n) - 1) && r.pl == Some(p)
    ensures Timer(Iterate(Tick, r, k - 1)).0.send == if k < t * (Pow2(n) - 1) && RetryAt(t, n, k) then [p] else []
  {
    StillWaiting(r, n, t, k - 1);
    PayloadSchedule(r, n, t, k);
    SentFor(Iterate(Tick, r, k - 1), p);
  }

  lemma SentFor(x: Rec, p: Msg)
    requires x.pl == Some(p) && Act(x) != PINGED
    ensures Timer(x).0.send == if Act(x) == RETRY then [p] else []
  {}

  /** Until then it was repeated `n - 1` times. */
  lemma PayloadRetries(r: Rec, n: nat, t: nat)
    requires Armed(r, n, t)
    ensures Tally(Tick, Repeats, r, t * (Pow2(n) - 1)) == n - 1
  {
    PayloadCountsDown();
    TwiceTotal(t, n);
    CountdownTally(Tick, Act, RETRY, Armed, Twice, Repeats, r, n, t);
  }

  /** With the constants of the program: repeated 6 times, at scans 2, 6, 14, 30, 62 and 126, and
      given up at scan 254. */
  lemma PayloadConstants(r: Rec, k: nat)
    requires Armed(r, ATTEMPTS, TICKS) && 1 <= k <= 254
    ensures ActionAt(r, k) == if k == 254 then TIMED else if k in {2, 6, 14, 30, 62, 126} then RETRY else NOTHING
    ensures Tally(Tick, Repeats, r, 254) == 6
  {
    SmallPowers();
    PayloadSchedule(r, ATTEMPTS, TICKS, k);
    PayloadRetries(r, ATTEMPTS, TICKS);
    RetryScans(k);
  }

  lemma RetryScans(k: nat)
    ensures RetryAt(TICKS, ATTEMPTS, k) <==> k in {2, 6, 14, 30, 62, 126}
  {
    SmallPowers();
    if k in {2, 6, 14, 30, 62, 126} {
      var i := if k == 2 then 1 else if k == 6 then 2 else if k == 14 then 3 else if k == 30 then 4 else if k == 62 then 5 else 6;
      assert k == TICKS * (Pow2(i) - 1);
    }
  }

  lemma SmallPowers()
    ensures Pow2(1) == 2 && Pow2(2) == 4 && Pow2(3) == 8 && Pow2(4) == 16 && Pow2(5) == 32 && Pow2(6) == 64 && Pow2(7) == 128
  {}

  // ----- silent records -------------------------------------------------------------------------

  /** A record that waits for nothing, with `p` pings left and `t` scans to the next one. */
  predicate Silent(r: Rec, p: nat, t: nat) {
    !Sending(r.state) && r.state != TIMEDOUT && r.pingsTilPurge == p && r.ticksTilPing == t && p >= 1 && t == TICKS_BETWEEN_PINGS
  }

  function Same(t: nat): nat {
    t
  }

  lemma {:induction false} Quiet(r: Rec, p: nat, t: nat, j: nat)
    requires Silent(r, p, t) && j < t
    ensures Iterate(Tick, r, j) == r.(ticksTilPing := t - j)
    ensures j + 1 < t ==> Act(Iterate(Tick, r, j)) == NOTHING
  {
    if j > 0 {
      Quiet(r, p, t, j - 1);
    }
  }

  lemma QuietEnds(r: Rec, p: nat, t: nat)
    requires Silent(r, p, t)
    ensures Act(Iterate(Tick, r, t - 1)) == if p == 1 then TIMED else PINGED
    ensures p > 1 ==> Silent(Iterate(Tick, r, t), p - 1, t)
  {
    Quiet(r, p, t, t - 1);
    IterateLast(Tick, r, t);
    QuietLast(r, p, t, Iterate(Tick, r, t - 1), Iterate(Tick, r, t));
  }

  lemma QuietLast(r: Rec, p: nat, t: nat, x: Rec, y: Rec)
    requires Silent(r, p, t) && x == r.(ticksTilPing := 1) && y == Tick(x)
    ensures Act(x) == if p == 1 then TIMED else PINGED
    ensures p > 1 ==> Silent(y, p - 1, t)
  {}

  lemma SilentPeriod(r: Rec, p: nat, t: nat)
    requires Silent(r, p, t)
    ensures Period(Tick, Act, PINGED, Silent, Same, r, p, t)
  {
    forall j | 0 <= j < t - 1
      ensures Act(Iterate(Tick, r, j)) == NOTHING
    {
      Quiet(r, p, t, j);
    }
    QuietEnds(r, p, t);
  }

  lemma SilenceCountsDown()
    ensures CountsDown(Tick, Act, PINGED, Silent, Same)
  {
    forall r: Rec, p: nat, t: nat | Silent(r, p, t)
      ensures Period(Tick, Act, PINGED, Silent, Same, r, p, t)
    {
      SilentPeriod(r, p, t);
    }
  }

  /** From the last packet that moved a record which waits for nothing: 2 pings, at scans 3000 and
      6000, and declared timed out at exactly scan 9000. */
  lemma SilentSchedule(r: Rec, s: State, k: nat)
    requires !Sending(s) && s != TIMEDOUT && 1 <= k <= 9000
    ensures ActionAt(SetState(r, s), k) == if k == 9000 then TIMED else if k == 3000 || k == 6000 then PINGED else NOTHING
  {
    SilenceCountsDown();
    var t := TICKS_BETWEEN_PINGS;
    assert Total(Same, t, 1) == 3000 && Total(Same, t, 2) == 6000 && Total(Same, t, 3) == 9000;
    CountdownSchedule(Tick, Act, PINGED, Silent, Same, SetState(r, s), PINGS_BEFORE_PURGE, t, k);
    forall i | 1 <= i < PINGS_BEFORE_PURGE
      ensures Total(Same, t, i) == 3000 || Total(Same, t, i) == 6000
    {
      assert i == 1 || i == 2;
    }
  }

  // ----- the counters never wrap ----------------------------------------------------------------

  /** The ticks a payload is due at depend on the attempts left: doubled once for each one used. */
  ghost predicate CountersOk(r: Rec) {
    && (r.nattempts >= 1 ==>
          r.nattempts <= ATTEMPTS && r.ticks == Pow2(ATTEMPTS + 1 - r.nattempts) && 1 <= r.ticksLeft <= r.ticks)
    && (Sending(r.state) ==> r.nattempts >= 1)
    && (r.state != TIMEDOUT ==> 1 <= r.pingsTilPurge <= PINGS_BEFORE_PURGE && 1 <= r.ticksTilPing <= TICKS_BETWEEN_PINGS)
  }

  /** No 16-bit counter passes below zero or is doubled past its range in this scan. */
  ghost predicate NoWrap(r: Rec) {
    r.state != TIMEDOUT ==>
      if Sending(r.state) then
        r.ticksLeft >= 1 && (r.ticksLeft == 1 ==> r.nattempts >= 1 && (r.nattempts > 1 ==> 2 * r.ticks < 0x1_0000))
      else
        r.ticksTilPing >= 1 && (r.ticksTilPing == 1 ==> r.pingsTilPurge >= 1)
  }

  lemma Range(n: nat)
    requires 1 <= n <= ATTEMPTS
    ensures Pow2(1) == TICKS && Pow2(ATTEMPTS + 1 - n) <= 128
  {
    assert Pow2(7) == 128;
  }

  lemma CountersDoNotWrap(r: Rec)
    requires CountersOk(r)
    ensures NoWrap(r)
  {
    if r.nattempts >= 1 { Range(r.nattempts); }
  }

  lemma ScanKeepsCounters(r: Rec)
    requires CountersOk(r)
    ensures CountersOk(Tick(r))
  {
    if r.nattempts >= 1 { Range(r.nattempts); }
  }

  lemma MovedCounters(r: Rec, s: State)
    requires CountersOk(r) && (Sending(s) ==> r.state == s)
    ensures CountersOk(SetState(r, s))
  {}

  lemma ArmedCounters(r: Rec, p: Msg, s: State)
    ensures CountersOk(SetState(SetPayload(r, p), s)) && CountersOk(SetState(SetPayload(r, p).(seqno := p.seqno), s))
  {
    Range(ATTEMPTS);
  }

  /** Any message leaves the counters of any record in range. */
  lemma MessageKeepsCounters(r: Rec, m: Msg)
    requires CountersOk(r)
    ensures CountersOk(OnMsg(r, m).rec)
  {
    match m.cmd
    case QUERY => QueryKeepsCounters(r, m);
    case RESPONSE => ResponseKeepsCounters(r, m);
    case FRAGMENT => FragmentKeepsCounters(r, m);
    case SEQNO => ArmedCounters(r, Control(SACK, m.seqno, 1, 1), IDLE);
    case _ => MoveKeepsCounters(r, m);
  }

  lemma MoveKeepsCounters(r: Rec, m: Msg)
    requires CountersOk(r) && m.cmd != QUERY && m.cmd != RESPONSE && m.cmd != FRAGMENT && m.cmd != SEQNO
    ensures CountersOk(OnMsg(r, m).rec)
  {
    var o := OnMsg(r, m);
    assert o.rec == r || o.rec == SetState(r, o.rec.state);
    MovedCounters(r, o.rec.state);
  }

  lemma QueryKeepsCounters(r: Rec, m: Msg)
    requires CountersOk(r)
    ensures CountersOk(OnQuery(r, m).rec)
  {
    var cp := Control(QACK, m.seqno, m.fnum, m.nfrags);
    ArmedCounters(r.(seqno := m.seqno), cp, QACK_SENT);
    ArmedCounters(r.(resp := None), cp, QACK_SENT);
    MovedCounters(r, r.state);
  }

  lemma ResponseKeepsCounters(r: Rec, m: Msg)
    requires CountersOk(r)
    ensures CountersOk(OnResponse(r, m).rec)
  {
    var cp := Control(RACK, m.seqno, m.fnum, m.nfrags);
    ArmedCounters(r.(resp := Some(Buf(m.tlen, m.data))), cp, IDLE);
    if r.resp.Some? {
      ArmedCounters(r.(resp := Some(Place(r.resp.value, m)), lastFrag := m.fnum), cp, IDLE);
    }
  }

  lemma FragmentKeepsCounters(r: Rec, m: Msg)
    requires CountersOk(r)
    ensures CountersOk(OnFragment(r, m).rec)
  {
    var cp := Control(FACK, m.seqno, m.fnum, m.nfrags);
    ArmedCounters(r.(seqno := m.seqno, resp := Some(Alloc(m)), lastFrag := m.fnum), cp, FACK_SENT);
    if r.resp.Some? {
      ArmedCounters(r.(resp := Some(Place(r.resp.value, m)), lastFrag := m.fnum), cp, FACK_SENT);
    }
    MovedCounters(r, r.state);
  }

  lemma QueryPieceCounters(y: System, q: seq<byte>, f: nat)
    requires |q| > 0 && 1 <= f <= NFrags(|q|)
    ensures CountersOk(SendQueryPiece(y, q, f).cl) && SendQueryPiece(y, q, f).sv == y.sv
  {
    var p := Piece(QUERY, y.cl.seqno, q, f);
    ArmedCounters(y.cl.(lastFrag := f), p, FRAGMENT_SENT);
    ArmedCounters(y.cl, p, QUERY_SENT);
  }

  lemma ResponsePieceCounters(y: System, q: seq<byte>, f: nat)
    requires |q| > 0 && 1 <= f <= NFrags(|q|)
    ensures CountersOk(SendResponsePiece(y, q, f).sv) && SendResponsePiece(y, q, f).cl == y.cl
  {
    var p := Piece(RESPONSE, y.sv.seqno, q, f);
    ArmedCounters(y.sv.(lastFrag := f), p, FRAGMENT_SENT);
    ArmedCounters(y.sv, p, RESPONSE_SENT);
  }

  lemma CallKeepsCounters(y: System, q: seq<byte>)
    requires |q| > 0 && CountersOk(y.cl)
    ensures CountersOk(DoCallStart(y, q).cl) && DoCallStart(y, q).sv == y.sv
  {
    var s := y.cl.seqno + 1;
    QueryPieceCounters(y.(cl := y.cl.(seqno := s), h := y.h.(calls := y.h.calls[s := q])), q, 1);
  }

  lemma CallNextKeepsCounters(y: System)
    requires y.cpc.SendingQuery? && CountersOk(y.cl)
    ensures CountersOk(DoCallNext(y).cl) && DoCallNext(y).sv == y.sv
  {
    if |y.cpc.query| > 0 && y.cpc.fnum + 1 <= NFrags(|y.cpc.query|) {
      QueryPieceCounters(y, y.cpc.query, y.cpc.fnum + 1);
    }
  }

  lemma RespondKeepsCounters(y: System, r: seq<byte>)
    requires |r| > 0 && CountersOk(y.sv)
    ensures CountersOk(DoRespondStart(y, r).sv) && DoRespondStart(y, r).cl == y.cl
  {
    ResponsePieceCounters(y.(h := y.h.(resps := y.h.resps[y.sv.seqno := r])), r, 1);
  }

  lemma RespondNextKeepsCounters(y: System)
    requires y.spc.SendingResponse? && CountersOk(y.sv)
    ensures CountersOk(DoRespondNext(y).sv) && DoRespondNext(y).cl == y.cl
  {
    if |y.spc.response| > 0 && y.spc.fnum + 1 <= NFrags(|y.spc.response|) {
      ResponsePieceCounters(y, y.spc.response, y.spc.fnum + 1);
    }
  }

  lemma ToServerKeepsCounters(y: System, i: nat)
    requires i < |y.c2s| && CountersOk(y.sv)
    ensures CountersOk(DoToServer(y, i).sv) && DoToServer(y, i).cl == y.cl
  {
    var m := y.c2s[i];
    MessageKeepsCounters(y.sv, m);
    ArmedCounters(Create(m.seqno), Control(CACK, m.seqno, 1, 1), IDLE);
  }

  lemma StepKeepsCounters(y: System, p: Step)
    requires Enabled(y, p) && CountersOk(y.cl) && CountersOk(y.sv)
    ensures CountersOk(Next(y, p).cl) && CountersOk(Next(y, p).sv)
  {
    match p
    case ToServer(i) => ToServerKeepsCounters(y, i);
    case ToClient(i) => MessageKeepsCounters(y.cl, y.s2c[i]);
    case ClientTimer => ScanKeepsCounters(y.cl);
    case ServerTimer => ScanKeepsCounters(y.sv);
    case CallStart(q) => CallKeepsCounters(y, q);
    case CallNext => CallNextKeepsCounters(y);
    case RespondStart(r) => RespondKeepsCounters(y, r);
    case RespondNext => RespondNextKeepsCounters(y);
    case Disconnect => ArmedCounters(y.cl, Control(DISCONNECT, y.cl.seqno, 1, 1), DISCONNECT_SENT);
    case _ =>
  }

  /** In no state of any run can a scan take a 16-bit counter below zero or past its range. */
  lemma {:induction false} CountersNeverWrap(s0: nat, ps: seq<Step>, ys: seq<System>, n: nat)
    requires Run(s0, ps, ys) && n < |ys|
    ensures CountersOk(ys[n].cl) && CountersOk(ys[n].sv)
    ensures NoWrap(ys[n].cl) && NoWrap(ys[n].sv)
  {
    if n > 0 {
      CountersNeverWrap(s0, ps, ys, n - 1);
      StepKeepsCounters(ys[n - 1], ps[n - 1]);
    }
    CountersDoNotWrap(ys[n].cl);
    CountersDoNotWrap(ys[n].sv);
  }
}
