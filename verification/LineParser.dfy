/** Cutting a payload into lines: `ipq_parse_packet_line_info` in `ipq_main.c`. */
module LineParser {
  import opened Guards
  import opened Options
  import opened Octets

  const CR: byte := 0x0d
  const LF: byte := 0x0a
  const MAX_LINES := 200

  /** A recorded line: where it starts in the payload, and its length. */
  datatype Line = Line(start: nat, len: nat)

  predicate CrlfAt(s: seq<byte>, i: int) {
    0 <= i && i + 1 < |s| && s[i] == CR && s[i + 1] == LF
  }

  /** How many CRLF pairs begin before position `n`. */
  function Count(s: seq<byte>, n: nat): nat {
    if n == 0 then 0 else Count(s, n - 1) + if CrlfAt(s, n - 1) then 1 else 0
  }

  lemma {:induction false} CountMonotone(s: seq<byte>, m: nat, n: nat)
    requires m <= n
    ensures Count(s, m) <= Count(s, n)
  {
    if m < n { CountMonotone(s, m, n - 1); }
  }

  ghost predicate NoCrlf(s: seq<byte>) {
    forall i :: 0 <= i < |s| ==> !CrlfAt(s, i)
  }

  /** The lines, each followed by CRLF. */
  function Ended(lines: seq<seq<byte>>): seq<byte> {
    if lines == [] then [] else Ended(lines[..|lines| - 1]) + lines[|lines| - 1] + [CR, LF]
  }

  /** The lines with CRLF between them. */
  function Joined(lines: seq<seq<byte>>): seq<byte> {
    if lines == [] then [] else Ended(lines[..|lines| - 1]) + lines[|lines| - 1]
  }

  function Text(s: seq<byte>, l: Line): seq<byte> {
    if l.start + l.len <= |s| then s[l.start..l.start + l.len] else []
  }

  function Texts(s: seq<byte>, ls: seq<Line>): (ts: seq<seq<byte>>)
    ensures |ts| == |ls| && forall i :: 0 <= i < |ls| ==> ts[i] == Text(s, ls[i])
  {
    seq(|ls|, i requires 0 <= i < |ls| => Text(s, ls[i]))
  }

  lemma EndedSnoc(ts: seq<seq<byte>>, t: seq<byte>)
    ensures Ended(ts + [t]) == Ended(ts) + t + [CR, LF] && Joined(ts + [t]) == Ended(ts) + t
  {
    assert (ts + [t])[..|ts|] == ts;
  }

  /** Up to position `at`, where a line begins: the lines so far, none of them with a CRLF. */
  ghost predicate Cut(s: seq<byte>, ls: seq<Line>, at: nat) {
    at <= |s| && forall z {:trigger Open(z)} :: Open(z) ==> CutHere(s, ls, at)
  }

  ghost predicate CutHere(s: seq<byte>, ls: seq<Line>, at: nat) {
    at <= |s| && s[..at] == Ended(Texts(s, ls)) && CleanLines(s, ls)
  }

  ghost predicate CleanLines(s: seq<byte>, ls: seq<Line>) {
    forall i :: 0 <= i < |ls| ==> NoCrlf(Text(s, ls[i]))
  }

  lemma CutStart(s: seq<byte>)
    ensures Cut(s, [], 0)
  {}

  lemma CutNext(s: seq<byte>, ls: seq<Line>, at: nat, a: nat)
    requires Cut(s, ls, at) && at <= a && CrlfAt(s, a) && forall j :: at <= j < a ==> !CrlfAt(s, j)
    ensures Cut(s, ls + [Line(at, a - at)], a + 2)
  {
    assert Open(0);
    CutHereNext(s, ls, at, a);
  }

  lemma CutHereNext(s: seq<byte>, ls: seq<Line>, at: nat, a: nat)
    requires CutHere(s, ls, at) && at <= a && CrlfAt(s, a) && forall j :: at <= j < a ==> !CrlfAt(s, j)
    ensures CutHere(s, ls + [Line(at, a - at)], a + 2)
  {
    var l := Line(at, a - at);
    var t := Text(s, l);
    CleanPart(s, at, a);
    CleanMore(s, ls, l);
    EndedSnoc(Texts(s, ls), t);
    TextsSnoc(s, ls, l);
    UpToCrlf(s, at, a);
  }

  lemma TextsSnoc(s: seq<byte>, ls: seq<Line>, l: Line)
    ensures Texts(s, ls + [l]) == Texts(s, ls) + [Text(s, l)]
  {}

  lemma UpToCrlf(s: seq<byte>, at: nat, a: nat)
    requires at <= a && CrlfAt(s, a)
    ensures s[..a + 2] == s[..at] + s[at..a] + [CR, LF]
  {}

  lemma CleanPart(s: seq<byte>, at: nat, a: nat)
    requires at <= a <= |s| && forall j :: at <= j < a ==> !CrlfAt(s, j)
    ensures NoCrlf(s[at..a])
  {
    var t := s[at..a];
    assert forall i :: 0 <= i < |t| ==> t[i] == s[at + i];
    forall i | 0 <= i < |t|
      ensures !CrlfAt(t, i)
    {
      assert CrlfAt(t, i) ==> CrlfAt(s, at + i);
    }
  }

  lemma CleanMore(s: seq<byte>, ls: seq<Line>, l: Line)
    requires CleanLines(s, ls) && NoCrlf(Text(s, l))
    ensures CleanLines(s, ls + [l])
  {}

  lemma CutLast(s: seq<byte>, ls: seq<Line>, at: nat)
    requires Cut(s, ls, at) && forall j :: at <= j < |s| ==> !CrlfAt(s, j)
    ensures var all := ls + [Line(at, |s| - at)]; s == Joined(Texts(s, all)) && CleanLines(s, all)
  {
    assert Open(0);
    CutHereLast(s, ls, at);
  }

  lemma CutHereLast(s: seq<byte>, ls: seq<Line>, at: nat)
    requires CutHere(s, ls, at) && forall j :: at <= j < |s| ==> !CrlfAt(s, j)
    ensures var all := ls + [Line(at, |s| - at)]; s == Joined(Texts(s, all)) && CleanLines(s, all)
  {
    var l := Line(at, |s| - at);
    var t := Text(s, l);
    assert t == s[at..];
    CleanPart(s, at, |s|);
    CleanMore(s, ls, l);
    EndedSnoc(Texts(s, ls), t);
    TextsSnoc(s, ls, l);
    assert s == s[..at] + t;
  }

  /** The recorded lines `ls` rebuild the payload `s`. */
  ghost predicate Parsed(s: seq<byte>, ls: seq<Line>) {
    var n := Count(s, |s|);
    && CleanLines(s, ls)
    && (n == 0 ==> ls == [])
    && (1 <= n < 200 && CrlfAt(s, |s| - 2) ==> |ls| == n && s == Ended(Texts(s, ls)))
    && (1 <= n < 200 && !CrlfAt(s, |s| - 2) ==> |ls| == n + 1 && s == Joined(Texts(s, ls)))
    && (n >= 200 ==> |ls| == 199 && Ended(Texts(s, ls)) <= s)
  }

  /** The three ways out: the array is full, the payload ends with CRLF, or it does not. */
  lemma Full(s: seq<byte>, ls: seq<Line>, at: nat, a: nat)
    requires Cut(s, ls, at) && |ls| == MAX_LINES - 1 == Count(s, a) && at <= a && CrlfAt(s, a)
    ensures Parsed(s, ls)
  {
    assert Open(0);
    CountMonotone(s, a + 1, |s|);
    assert s == s[..at] + s[at..];
  }

  lemma EndsWithCrlf(s: seq<byte>, ls: seq<Line>, a: nat)
    requires Cut(s, ls, |s|) && |s| == a + 2 && CrlfAt(s, a) && 1 <= |ls| == Count(s, a) + 1 < MAX_LINES
    ensures Parsed(s, ls)
  {
    assert Open(0);
    CountPair(s, a);
    assert s[..|s|] == s;
  }

  lemma EndsInLine(s: seq<byte>, ls: seq<Line>, at: nat, a: nat)
    requires Cut(s, ls, at) && at < |s| && |s| - 1 <= a <= |s| && 1 <= |ls| == Count(s, a) < MAX_LINES
    requires forall j :: at <= j < a ==> !CrlfAt(s, j)
    ensures Parsed(s, ls + [Line(at, |s| - at)])
  {
    assert Count(s, |s|) == Count(s, a);
    CutLast(s, ls, at);
    NotAtEnd(s, ls, at, a);
  }

  lemma NoLines(s: seq<byte>, a: nat)
    requires |s| - 1 <= a <= |s| && Count(s, a) == 0
    ensures Parsed(s, [])
  {
    assert Count(s, |s|) == Count(s, a);
  }

  lemma NotAtEnd(s: seq<byte>, ls: seq<Line>, at: nat, a: nat)
    requires Cut(s, ls, at) && 1 <= |ls| && at < |s| && |s| - 1 <= a && forall j :: at <= j < a ==> !CrlfAt(s, j)
    ensures !CrlfAt(s, |s| - 2)
  {
    BeforeLine(s, ls, at);
    assert |s| - 2 >= at || |s| - 2 == at - 1;
  }

  lemma CountPair(s: seq<byte>, a: nat)
    requires CrlfAt(s, a)
    ensures Count(s, a + 1) == Count(s, a) + 1 && Count(s, a + 2) == Count(s, a) + 1
  {}

  /** A line never begins in the middle of a CRLF. */
  lemma BeforeLine(s: seq<byte>, ls: seq<Line>, at: nat)
    requires Cut(s, ls, at) && 1 <= |ls|
    ensures at >= 2 && s[at - 2] == CR && s[at - 1] == LF
  {
    assert Open(0);
    var e := Ended(Texts(s, ls));
    assert |e| == at && e[at - 2] == CR && e[at - 1] == LF;
    assert s[..at][at - 1] == s[at - 1] && s[..at][at - 2] == s[at - 2];
  }

  // ----- what the lines say ---------------------------------------------------------------------

  /** The packet's header fields, and the empty line. */
  datatype Field =
    | Host | Content | Accept | Referer | UserAgent | Encoding | Transfer | Length | Cookie | Session
    | Empty

  predicate Starts(t: seq<byte>, p: string) {
    |p| <= |t| && forall i :: 0 <= i < |p| ==> t[i] == p[i] as int
  }

  /** Where the value of field `f` begins in a line with text `t`, if the line has that field. */
  function Offset(t: seq<byte>, f: Field): Option<nat> {
    match f
    case Host =>
      // a name that follows the colon without a space is taken too
      if |t| > 6 && Starts(t, "Host:") then Some(if t[5] == 0x20 then 6 else 5) else None
    case Content =>
      if |t| > 13 && Starts(t, "content-type:") then Some(13)
      else if |t| > 14 && (Starts(t, "Content-Type: ") || Starts(t, "Content-type: ")) then Some(14)
      else None
    case Accept => if |t| > 8 && Starts(t, "Accept: ") then Some(8) else None
    case Referer => if |t| > 9 && Starts(t, "Referer: ") then Some(9) else None
    case UserAgent => if |t| > 12 && Starts(t, "User-Agent: ") then Some(12) else None
    case Encoding => if |t| > 18 && Starts(t, "Content-Encoding: ") then Some(18) else None
    case Transfer => if |t| > 19 && Starts(t, "Transfer-Encoding: ") then Some(19) else None
    case Length =>
      if |t| > 16 && (Starts(t, "Content-Length: ") || Starts(t, "content-length: ")) then Some(16) else None
    case Cookie => if |t| > 8 && Starts(t, "Cookie: ") then Some(8) else None
    case Session => if |t| > 16 && Starts(t, "X-Session-Type: ") then Some(16) else None
    case Empty => if |t| == 0 then Some(0) else None
  }

  function Bytes(p: string): (b: seq<byte>)
    requires forall i :: 0 <= i < |p| ==> p[i] < 256 as char
    ensures |b| == |p| && forall i :: 0 <= i < |p| ==> b[i] == p[i] as int
  {
    seq(|p|, i requires 0 <= i < |p| => p[i] as int)
  }

  lemma StartsSelf(p: string, v: seq<byte>)
    requires forall i :: 0 <= i < |p| ==> p[i] < 256 as char
    ensures Starts(Bytes(p) + v, p)
  {
    var t := Bytes(p) + v;
    assert forall i :: 0 <= i < |p| ==> t[i] == Bytes(p)[i];
  }

  // A line that begins with a field's name and goes on has the field, and the rest is its value.

  lemma HostField(v: seq<byte>)
    requires |v| > 1
    ensures Offset(Bytes("Host: ") + v, Host) == Some(6)
    ensures v[0] != 0x20 ==> Offset(Bytes("Host:") + v, Host) == Some(5)
  {
    var t, u := Bytes("Host: ") + v, Bytes("Host:") + v;
    StartsSelf("Host:", v);
    assert t == Bytes("Host:") + ([0x20] + v) && u[5] == v[0];
    StartsSelf("Host:", [0x20] + v);
  }

  lemma ContentField(v: seq<byte>)
    requires |v| > 0
    ensures Offset(Bytes("Content-Type: ") + v, Content) == Some(14) && Offset(Bytes("Content-type: ") + v, Content) == Some(14)
    ensures Offset(Bytes("content-type:") + v, Content) == Some(13)
  {
    var t, u := Bytes("Content-Type: ") + v, Bytes("Content-type: ") + v;
    assert t[0] == Bytes("Content-Type: ")[0] == 0x43 && u[0] == Bytes("Content-type: ")[0] == 0x43;
    StartsSelf("Content-Type: ", v);
    StartsSelf("Content-type: ", v);
    StartsSelf("content-type:", v);
  }

  lemma LengthField(v: seq<byte>)
    requires |v| > 0
    ensures Offset(Bytes("Content-Length: ") + v, Length) == Some(16) && Offset(Bytes("content-length: ") + v, Length) == Some(16)
  {
    StartsSelf("Content-Length: ", v);
    StartsSelf("content-length: ", v);
  }

  lemma OtherFields(v: seq<byte>)
    requires |v| > 0
    ensures Offset(Bytes("Accept: ") + v, Accept) == Some(8)
    ensures Offset(Bytes("Referer: ") + v, Referer) == Some(9)
    ensures Offset(Bytes("User-Agent: ") + v, UserAgent) == Some(12)
    ensures Offset(Bytes("Content-Encoding: ") + v, Encoding) == Some(18)
    ensures Offset(Bytes("Transfer-Encoding: ") + v, Transfer) == Some(19)
    ensures Offset(Bytes("Cookie: ") + v, Cookie) == Some(8)
    ensures Offset(Bytes("X-Session-Type: ") + v, Session) == Some(16)
  {
    StartsSelf("Accept: ", v);
    StartsSelf("Referer: ", v);
    StartsSelf("User-Agent: ", v);
    StartsSelf("Content-Encoding: ", v);
    StartsSelf("Transfer-Encoding: ", v);
    StartsSelf("Cookie: ", v);
    StartsSelf("X-Session-Type: ", v);
  }

  /** Records the value of one field. */
  function Noted(s: seq<byte>, l: Line, h: map<Field, Line>, f: Field): map<Field, Line> {
    Put(h, f, l, Offset(Text(s, l), f))
  }

  function Put(h: map<Field, Line>, f: Field, l: Line, o: Option<nat>): map<Field, Line> {
    match o
    case None => h
    case Some(n) => h[f := Line(l.start + n, if n <= l.len then l.len - n else 0)]
  }

  /** `v` is what `o` cuts off the last of the lines `ls` that it finds anything in. */
  ghost predicate LastOf(o: Line -> Option<nat>, ls: seq<Line>, v: Option<Line>) {
    match v
    case None => forall j :: 0 <= j < |ls| ==> o(ls[j]) == None
    case Some(w) => exists k :: 0 <= k < |ls| && IsValue(o, ls[k], w) && forall j :: k < j < |ls| ==> o(ls[j]) == None
  }

  /** `w` is the rest of line `l` from the offset that `o` finds in it. */
  ghost predicate IsValue(o: Line -> Option<nat>, l: Line, w: Line) {
    o(l).Some? && o(l).value <= l.len && w == Line(l.start + o(l).value, l.len - o(l).value)
  }

  lemma LastNext(o: Line -> Option<nat>, ls: seq<Line>, l: Line, v: Option<Line>, v': Option<Line>)
    requires LastOf(o, ls, v) && (o(l) == None ==> v' == v) && (o(l).Some? ==> v'.Some? && IsValue(o, l, v'.value))
    ensures LastOf(o, ls + [l], v')
  {
    var all := ls + [l];
    if o(l).Some? {
      assert IsValue(o, all[|ls|], v'.value);
    } else if v.Some? {
      var k :| 0 <= k < |ls| && IsValue(o, ls[k], v.value) && forall j :: k < j < |ls| ==> o(ls[j]) == None;
      assert IsValue(o, all[k], v'.value);
    }
  }

  function Finder(s: seq<byte>, f: Field): Line -> Option<nat> {
    (l: Line) => Offset(Text(s, l), f)
  }

  /** What `h` has for field `f` comes from the last of the lines with that field. */
  ghost predicate Latest(s: seq<byte>, ls: seq<Line>, h: map<Field, Line>, f: Field) {
    LastOf(Finder(s, f), ls, if f in h then Some(h[f]) else None)
  }

  lemma OffsetFits(t: seq<byte>, f: Field)
    ensures Offset(t, f).Some? ==> Offset(t, f).value <= |t|
  {}

  lemma NotedLatest(s: seq<byte>, ls: seq<Line>, l: Line, h: map<Field, Line>, f: Field)
    requires Latest(s, ls, h, f) && l.start + l.len <= |s|
    ensures Latest(s, ls + [l], Noted(s, l, h, f), f)
  {
    OffsetFits(Text(s, l), f);
    var h' := Noted(s, l, h, f);
    LastNext(Finder(s, f), ls, l, if f in h then Some(h[f]) else None, if f in h' then Some(h'[f]) else None);
  }

  const FIELDS := [Host, Content, Accept, Referer, UserAgent, Encoding, Transfer, Length, Cookie, Session, Empty]

  /** What a line sets, field after field. */
  function NotedAll(s: seq<byte>, l: Line, h: map<Field, Line>, fs: seq<Field>): map<Field, Line> {
    if fs == [] then h else Noted(s, l, NotedAll(s, l, h, fs[..|fs| - 1]), fs[|fs| - 1])
  }

  ghost predicate Agree(h: map<Field, Line>, h': map<Field, Line>, f: Field) {
    (f in h <==> f in h') && (f in h ==> h[f] == h'[f])
  }

  lemma PutStep(h: map<Field, Line>, r: map<Field, Line>, l: Line, f: Field, g: Field, o: Option<nat>, p: Option<nat>, seen: bool)
    requires (f == g ==> o == p) && Agree(r, if seen then Put(h, f, l, o) else h, f)
    ensures Agree(Put(r, g, l, p), if seen || f == g then Put(h, f, l, o) else h, f)
  {}

  lemma {:induction false} NotedAllAt(s: seq<byte>, l: Line, h: map<Field, Line>, fs: seq<Field>, f: Field)
    ensures Agree(NotedAll(s, l, h, fs), if f in fs then Noted(s, l, h, f) else h, f)
  {
    if fs != [] {
      var gs, g := fs[..|fs| - 1], fs[|fs| - 1];
      NotedAllAt(s, l, h, gs, f);
      PutStep(h, NotedAll(s, l, h, gs), l, f, g, Offset(Text(s, l), f), Offset(Text(s, l), g), f in gs);
      assert fs == gs + [g];
    }
  }

  ghost predicate AllLatest(s: seq<byte>, ls: seq<Line>, h: map<Field, Line>) {
    forall f :: Latest(s, ls, h, f)
  }

  lemma LineNoted(s: seq<byte>, ls: seq<Line>, l: Line, h: map<Field, Line>)
    requires AllLatest(s, ls, h) && l.start + l.len <= |s|
    ensures AllLatest(s, ls + [l], NotedAll(s, l, h, FIELDS))
  {
    forall f
      ensures Latest(s, ls + [l], NotedAll(s, l, h, FIELDS), f)
    {
      NotedAllAt(s, l, h, FIELDS, f);
      InFields(f);
      NotedLatest(s, ls, l, h, f);
      LatestSame(s, ls + [l], Noted(s, l, h, f), NotedAll(s, l, h, FIELDS), f);
    }
  }

  lemma InFields(f: Field)
    ensures f in FIELDS
  {
    assert FIELDS[0] == Host && FIELDS[1] == Content && FIELDS[2] == Accept && FIELDS[3] == Referer && FIELDS[4] == UserAgent;
    assert FIELDS[5] == Encoding && FIELDS[6] == Transfer && FIELDS[7] == Length && FIELDS[8] == Cookie && FIELDS[9] == Session;
    assert FIELDS[10] == Empty;
  }

  lemma LatestSame(s: seq<byte>, ls: seq<Line>, h: map<Field, Line>, h': map<Field, Line>, f: Field)
    requires Latest(s, ls, h, f) && Agree(h', h, f)
    ensures Latest(s, ls, h', f)
  {}

  /** A CRLF is found: its line is recorded. */
  method Record(s: seq<byte>, lines: array<Line>, parsed: nat, a: nat)
    requires lines.Length == MAX_LINES && parsed < MAX_LINES && lines[parsed].start <= a && CrlfAt(s, a)
    requires Cut(s, lines[..parsed], lines[parsed].start) && forall j :: lines[parsed].start <= j < a ==> !CrlfAt(s, j)
    modifies lines
    ensures lines[parsed].start == old(lines[parsed].start) && lines[..parsed] == old(lines[..parsed])
    ensures Cut(s, lines[..parsed], lines[parsed].start) && Cut(s, lines[..parsed + 1], a + 2)
    ensures lines[parsed].start + lines[parsed].len == a
  {
    ghost var ls, at := lines[..parsed], lines[parsed].start;
    CutNext(s, ls, at, a);
    lines[parsed] := Line(lines[parsed].start, a - lines[parsed].start);
    assert lines[..parsed] == ls;
    assert lines[..parsed + 1] == ls + [Line(at, a - at)];
  }

  method Begin(lines: array<Line>, parsed: nat, at: nat)
    requires lines.Length == MAX_LINES && parsed < MAX_LINES
    modifies lines
    ensures lines[parsed] == Line(at, 0) && lines[..parsed] == old(lines[..parsed])
  {
    lines[parsed] := Line(at, 0);
  }

  /** `ended` are the lines of `s` that a CRLF ends, up to MAX_LINES of them; the last of these is
      looked at, though it is not among the recorded lines `ls`. */
  ghost predicate AllEnded(s: seq<byte>, ended: seq<Line>, ls: seq<Line>) {
    var n := Count(s, |s|);
    && |ended| == (if n < MAX_LINES then n else MAX_LINES)
    && Ended(Texts(s, ended)) <= s && CleanLines(s, ended)
    && if n < MAX_LINES then ended <= ls else ls <= ended
  }

  lemma EndedUpTo(s: seq<byte>, ls: seq<Line>, at: nat)
    requires Cut(s, ls, at)
    ensures Ended(Texts(s, ls)) <= s && CleanLines(s, ls)
  {
    assert Open(0);
    assert s == s[..at] + s[at..];
  }

  /** `ipq_parse_packet_line_info`; `lines` is the packet's fixed array, never written past its end.
      `h` are the header fields and the empty line, each from the last line that has it. */
  method Parse(s: seq<byte>, lines: array<Line>) returns (parsed: nat, h: map<Field, Line>, ghost ended: seq<Line>)
    requires lines.Length == MAX_LINES
    modifies lines
    ensures parsed <= MAX_LINES && Parsed(s, lines[..parsed])
    ensures AllEnded(s, ended, lines[..parsed]) && AllLatest(s, ended, h)
  {
    parsed, h, ended := 0, map[], [];
    if |s| == 0 {
      Nothing(s);
      assert lines[..0] == [];
      return;
    }
    parsed, h, ended := ParseScan(s, lines);
    assert Open(0);
  }

  /** What the parser is to find; closed. */
  ghost predicate Outcome(s: seq<byte>, ls: seq<Line>, h: map<Field, Line>, ended: seq<Line>) {
    forall z {:trigger Open(z)} :: Open(z) ==> Parsed(s, ls) && AllEnded(s, ended, ls) && AllLatest(s, ended, h)
  }

  method ParseScan(s: seq<byte>, lines: array<Line>) returns (parsed: nat, h: map<Field, Line>, ghost ended: seq<Line>)
    requires lines.Length == MAX_LINES && |s| > 0
    modifies lines
    ensures parsed <= MAX_LINES && Outcome(s, lines[..parsed], h, ended)
  {
    parsed, h, ended := 0, map[], [];
    StartScan(s, lines);
    var a, done := 0, false;
    while a < |s| - 1
      invariant 0 <= a <= |s| && parsed < MAX_LINES && !done && Scan(s, lines[..], parsed, a, h, ended)
      decreases |s| - a
    {
      if s[a] == CR && s[a + 1] == LF {
        done, parsed, h, ended := AtCrlf(s, lines, parsed, a, h, ended);
        if done {
          return;
        }
        a := a + 1;
      } else {
        NoCrlfAt(s, lines[..], parsed, a, h, ended);
      }
      a := a + 1;
    }
    parsed := FinishScan(s, lines, parsed, a, h, ended);
  }

  method StartScan(s: seq<byte>, lines: array<Line>)
    requires lines.Length == MAX_LINES && |s| > 0
    modifies lines
    ensures Scan(s, lines[..], 0, 0, map[], [])
  {
    Begin(lines, 0, 0);
    CutStart(s);
    assert lines[..][..0] == [];
  }

  method FinishScan(s: seq<byte>, lines: array<Line>, parsed: nat, ghost a: nat, h: map<Field, Line>, ghost ended: seq<Line>) returns (k: nat)
    requires lines.Length == MAX_LINES && |s| - 1 <= a <= |s| && Scan(s, lines[..], parsed, a, h, ended)
    modifies lines
    ensures k <= MAX_LINES && Outcome(s, lines[..k], h, ended)
  {
    assert Open(0);
    assert lines[..][..parsed] == lines[..parsed];
    EndedUpTo(s, ended, lines[parsed].start);
    assert Count(s, |s|) == Count(s, a);
    k := Finish(s, lines, parsed, a);
  }

  /** Position `a` is reached, and the line that began last is line `parsed`. */
  ghost predicate Scanning(s: seq<byte>, lines: seq<Line>, parsed: nat, a: nat, h: map<Field, Line>, ended: seq<Line>) {
    && |lines| == MAX_LINES && parsed < MAX_LINES && parsed == Count(s, a)
    && lines[parsed].start <= a && lines[parsed].start < |s| && Cut(s, lines[..parsed], lines[parsed].start)
    && (forall j :: lines[parsed].start <= j < a ==> !CrlfAt(s, j))
    && ended == lines[..parsed] && AllLatest(s, ended, h)
  }

  /** The same, closed. */
  ghost predicate Scan(s: seq<byte>, lines: seq<Line>, parsed: nat, a: nat, h: map<Field, Line>, ended: seq<Line>) {
    forall z {:trigger Open(z)} :: Open(z) ==> Scanning(s, lines, parsed, a, h, ended)
  }

  lemma NoCrlfAt(s: seq<byte>, lines: seq<Line>, parsed: nat, a: nat, h: map<Field, Line>, ended: seq<Line>)
    requires Scan(s, lines, parsed, a, h, ended) && !CrlfAt(s, a)
    ensures Scan(s, lines, parsed, a + 1, h, ended)
  {}

  /** The body of the loop, at a CRLF. */
  method AtCrlf(s: seq<byte>, lines: array<Line>, parsed: nat, a: nat, h: map<Field, Line>, ghost before: seq<Line>)
    returns (done: bool, parsed': nat, h': map<Field, Line>, ghost ended: seq<Line>)
    requires lines.Length == MAX_LINES && CrlfAt(s, a) && parsed < MAX_LINES && Scan(s, lines[..], parsed, a, h, before)
    modifies lines
    ensures !done ==> a + 2 < |s| && parsed' < MAX_LINES && Scan(s, lines[..], parsed', a + 2, h', ended)
    ensures done ==> parsed' <= MAX_LINES && Outcome(s, lines[..parsed'], h', ended)
  {
    assert Open(0);
    done, parsed' := false, parsed;
    assert lines[..][..parsed] == lines[..parsed];
    h', ended := NoteLine(s, lines, parsed, a, h);
    if parsed >= MAX_LINES - 1 {
      FullOutcome(s, lines[..parsed], lines[parsed].start, a, h', ended);
      return true, parsed, h', ended;
    }
    CountPair(s, a);
    parsed' := parsed + 1;
    Begin(lines, parsed', a + 2);
    assert lines[..parsed'] == ended;
    if a + 2 >= |s| {
      CrlfOutcome(s, ended, a, h');
      done := true;
    } else {
      NextLine(s, lines[..], parsed', a + 2, h', ended);
    }
  }

  lemma FullOutcome(s: seq<byte>, ls: seq<Line>, at: nat, a: nat, h: map<Field, Line>, ended: seq<Line>)
    requires Cut(s, ls, at) && |ls| == MAX_LINES - 1 == Count(s, a) && at <= a && CrlfAt(s, a)
    requires ls <= ended && |ended| == MAX_LINES && Cut(s, ended, a + 2) && AllLatest(s, ended, h)
    ensures Outcome(s, ls, h, ended)
  {
    Full(s, ls, at, a);
    FullEnded(s, ls, ended, a);
  }

  lemma CrlfOutcome(s: seq<byte>, ls: seq<Line>, a: nat, h: map<Field, Line>)
    requires Cut(s, ls, |s|) && |s| == a + 2 && CrlfAt(s, a) && 1 <= |ls| == Count(s, a) + 1 < MAX_LINES && AllLatest(s, ls, h)
    ensures Outcome(s, ls, h, ls)
  {
    EndsWithCrlf(s, ls, a);
    CrlfEnded(s, ls, a);
  }

  lemma CrlfEnded(s: seq<byte>, ls: seq<Line>, a: nat)
    requires Cut(s, ls, |s|) && |s| == a + 2 && CrlfAt(s, a) && |ls| == Count(s, a) + 1 < MAX_LINES
    ensures AllEnded(s, ls, ls)
  {
    CountPair(s, a);
    EndedUpTo(s, ls, |s|);
  }

  lemma NextLine(s: seq<byte>, lines: seq<Line>, parsed: nat, a: nat, h: map<Field, Line>, ended: seq<Line>)
    requires |lines| == MAX_LINES && parsed < MAX_LINES && parsed == Count(s, a) && lines[parsed] == Line(a, 0) && a < |s|
    requires ended == lines[..parsed] && Cut(s, ended, a) && AllLatest(s, ended, h)
    ensures Scan(s, lines, parsed, a, h, ended)
  {}

  /** A CRLF is found: its line is recorded, and what it says is noted. */
  method NoteLine(s: seq<byte>, lines: array<Line>, parsed: nat, a: nat, h: map<Field, Line>)
    returns (h': map<Field, Line>, ghost ended: seq<Line>)
    requires lines.Length == MAX_LINES && parsed < MAX_LINES && lines[parsed].start <= a && CrlfAt(s, a)
    requires Cut(s, lines[..parsed], lines[parsed].start) && forall j :: lines[parsed].start <= j < a ==> !CrlfAt(s, j)
    requires AllLatest(s, lines[..parsed], h)
    modifies lines
    ensures lines[parsed].start == old(lines[parsed].start) && lines[..parsed] == old(lines[..parsed])
    ensures Cut(s, lines[..parsed], lines[parsed].start) && Cut(s, lines[..parsed + 1], a + 2)
    ensures ended == lines[..parsed + 1] && AllLatest(s, ended, h')
  {
    Record(s, lines, parsed, a);
    h' := NotedAll(s, lines[parsed], h, FIELDS);
    LineNoted(s, lines[..parsed], lines[parsed], h);
    ended := lines[..parsed + 1];
    assert ended == lines[..parsed] + [lines[parsed]];
  }

  lemma FullEnded(s: seq<byte>, ls: seq<Line>, ended: seq<Line>, a: nat)
    requires |ls| == MAX_LINES - 1 == Count(s, a) && CrlfAt(s, a) && ls <= ended && |ended| == MAX_LINES && Cut(s, ended, a + 2)
    ensures AllEnded(s, ended, ls)
  {
    CountMonotone(s, a + 1, |s|);
    EndedUpTo(s, ended, a + 2);
  }

  /** What follows the loop. */
  method Finish(s: seq<byte>, lines: array<Line>, parsed: nat, ghost a: nat) returns (k: nat)
    requires lines.Length == MAX_LINES && parsed < MAX_LINES && parsed == Count(s, a) && |s| - 1 <= a <= |s|
    requires lines[parsed].start < |s| && Cut(s, lines[..parsed], lines[parsed].start)
    requires forall j :: lines[parsed].start <= j < a ==> !CrlfAt(s, j)
    modifies lines
    ensures k <= MAX_LINES && Parsed(s, lines[..k]) && old(lines[..parsed]) <= lines[..k]
  {
    k := parsed;
    if parsed >= 1 {
      CloseLine(s, lines, parsed, a);
      k := k + 1;
    } else {
      NoLines(s, a);
      assert lines[..k] == [];
    }
  }

  method CloseLine(s: seq<byte>, lines: array<Line>, parsed: nat, ghost a: nat)
    requires lines.Length == MAX_LINES && 1 <= parsed < MAX_LINES && parsed == Count(s, a) && |s| - 1 <= a <= |s|
    requires lines[parsed].start < |s| && Cut(s, lines[..parsed], lines[parsed].start)
    requires forall j :: lines[parsed].start <= j < a ==> !CrlfAt(s, j)
    modifies lines
    ensures Parsed(s, lines[..parsed + 1]) && old(lines[..parsed]) <= lines[..parsed + 1]
  {
    ghost var ls, at := lines[..parsed], lines[parsed].start;
    SetLength(lines, parsed, |s|);
    LastLine(s, ls, at, a, lines[..parsed + 1]);
  }

  lemma LastLine(s: seq<byte>, ls: seq<Line>, at: nat, a: nat, all: seq<Line>)
    requires Cut(s, ls, at) && at < |s| && |s| - 1 <= a <= |s| && 1 <= |ls| == Count(s, a) < MAX_LINES
    requires (forall j :: at <= j < a ==> !CrlfAt(s, j)) && all == ls + [Line(at, |s| - at)]
    ensures Parsed(s, all)
  {
    EndsInLine(s, ls, at, a);
  }

  method SetLength(lines: array<Line>, k: nat, stop: nat)
    requires k < lines.Length && lines[k].start <= stop
    modifies lines
    ensures lines[..k + 1] == old(lines[..k]) + [Line(old(lines[k].start), stop - old(lines[k].start))]
  {
    lines[k] := Line(lines[k].start, stop - lines[k].start);
  }

  lemma Nothing(s: seq<byte>)
    requires |s| == 0
    ensures Parsed(s, [])
  {}
}
