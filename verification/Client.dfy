/**
 The daemon socket client: line framing over an arbitrarily chunked stream, the version handshake,
 and request correlation.

 Text is decoded text, a sequence of Unicode scalar values. What a line parses to is a parameter.
 A settled promise is an entry of `log`, in the order in which promises settle.
 */
module Client {
  import JsText
  import opened Options
  import opened Text

  const MAX_LINE_BYTES := 262144

  // ---- Text -----------------------------------------------------------------------------

  function Width(c: char): nat {
    if c as int < 0x80 then 1 else if c as int < 0x800 then 2 else if c as int < 0x1_0000 then 3 else 4
  }

  /** The length of the text in UTF-8. */
  function Bytes(s: string): nat {
    if s == [] then 0 else Width(s[0]) + Bytes(s[1..])
  }

  lemma {:induction false} BytesOfSum(a: string, b: string)
    ensures Bytes(a + b) == Bytes(a) + Bytes(b)
  {
    if a == [] {
      assert a + b == b;
    } else {
      BytesOfSum(a[1..], b);
      assert (a + b)[1..] == a[1..] + b;
    }
  }

  function EncodedText(s: string): seq<nat> {
    if s == [] then [] else JsText.Encoded(s[0] as int) + EncodedText(s[1..])
  }

  /** The measure of a text is the number of its bytes. */
  lemma {:induction false} BytesAreEncoded(s: string)
    ensures Bytes(s) == |EncodedText(s)|
  {
    if s != [] {
      BytesAreEncoded(s[1..]);
    }
  }

  function Digit(d: nat): char
    requires d < 10
  {
    "0123456789"[d]
  }

  function Decimal(n: nat): string {
    if n < 10 then [Digit(n)] else Decimal(n / 10) + [Digit(n % 10)]
  }

  lemma {:induction false} DecimalIsInjective(m: nat, n: nat)
    requires Decimal(m) == Decimal(n)
    ensures m == n
    decreases m
  {
    var x, y := Decimal(m), Decimal(n);
    assert x[|x| - 1] == Digit(m % 10) && y[|y| - 1] == Digit(n % 10);
    DecimalLength(m);
    DecimalLength(n);
    if m >= 10 && n >= 10 {
      assert x[..|x| - 1] == Decimal(m / 10) && y[..|y| - 1] == Decimal(n / 10);
      DecimalIsInjective(m / 10, n / 10);
    }
  }

  lemma DecimalLength(n: nat)
    ensures |Decimal(n)| == 1 <==> n < 10
  {
    if n >= 10 {
      assert |Decimal(n / 10)| >= 1;
    }
  }

  const ID_PREFIX := "herdr-daemon-"

  function IdText(n: nat): string {
    ID_PREFIX + Decimal(n)
  }

  lemma IdTextIsInjective(m: nat, n: nat)
    requires IdText(m) == IdText(n)
    ensures m == n
  {
    assert IdText(m)[|ID_PREFIX|..] == Decimal(m) && IdText(n)[|ID_PREFIX|..] == Decimal(n);
    DecimalIsInjective(m, n);
  }

  // ---- The connection --------------------------------------------------------------------

  datatype Why = Unavailable | VersionMismatch | ProtocolBroken | WriteFailed

  /** A parsed line. `Foreign` is a hello or a request, which a daemon does not send. */
  datatype Frame = Ack(version: int) | ErrorLine(code: string) | Reply(id: string, result: string) | Failure(id: string, code: string) | Foreign

  type Parser = string -> Option<Frame>

  datatype Outcome = Resolved(result: string) | Refused(code: string) | TimedOut | Unencodable | Dropped(why: Why)

  datatype Settled = Settled(id: string, outcome: Outcome)

  datatype Ready = Waiting | Opened | TurnedAway(why: Why)

  datatype Socket = Socket(version: int, buffer: string, acknowledged: bool, ready: Ready, closed: Option<Why>,
                           nextId: nat, pending: seq<string>, log: seq<Settled>)

  function Drops(pending: seq<string>, why: Why): (r: seq<Settled>)
    ensures |r| == |pending| && forall i :: 0 <= i < |r| ==> r[i] == Settled(pending[i], Dropped(why))
  {
    if pending == [] then [] else [Settled(pending[0], Dropped(why))] + Drops(pending[1..], why)
  }

  function Fail(s: Socket, why: Why): Socket {
    if s.closed.Some? then s
    else s.(closed := Some(why), ready := if s.ready.Waiting? then TurnedAway(why) else s.ready,
            pending := [], log := s.log + Drops(s.pending, why))
  }

  function Without(ids: seq<string>, id: string): (r: seq<string>)
    ensures forall x :: x in r <==> x in ids && x != id
  {
    if ids == [] then [] else (if ids[0] == id then [] else [ids[0]]) + Without(ids[1..], id)
  }

  function Settle(s: Socket, id: string, outcome: Outcome): Socket {
    if id in s.pending then s.(pending := Without(s.pending, id), log := s.log + [Settled(id, outcome)]) else s
  }

  function Consume(parse: Parser, s: Socket, line: string): Socket {
    match parse(line)
    case None => Fail(s, ProtocolBroken)
    case Some(f) =>
      if !s.acknowledged then
        match f
        case Ack(v) => if v != s.version then Fail(s, VersionMismatch) else s.(acknowledged := true, ready := if s.ready.Waiting? then Opened else s.ready)
        case ErrorLine(code) => Fail(s, if code == "PROTOCOL_MISMATCH" then VersionMismatch else ProtocolBroken)
        case _ => Fail(s, ProtocolBroken)
      else
        match f
        case Failure(id, code) => Settle(s, id, Refused(code))
        case Reply(id, result) => Settle(s, id, Resolved(result))
        case _ => Fail(s, ProtocolBroken)
  }

  /** One complete line, without its newline. */
  function TakeLine(parse: Parser, s: Socket, line: string): Socket {
    if Bytes(line) + 1 > MAX_LINE_BYTES then Fail(s, ProtocolBroken)
    else if AllBlank(line) then s
    else Consume(parse, s, line)
  }

  function CheckRest(s: Socket): Socket {
    if Bytes(s.buffer) > MAX_LINE_BYTES then Fail(s, ProtocolBroken) else s
  }

  lemma TakeLineKeepsBuffer(parse: Parser, s: Socket, line: string)
    ensures TakeLine(parse, s, line).buffer == s.buffer
  {
  }

  function Next(parse: Parser, s: Socket): Socket
    requires FirstNewline(s.buffer) < |s.buffer|
  {
    TakeLine(parse, s.(buffer := s.buffer[FirstNewline(s.buffer) + 1..]), s.buffer[..FirstNewline(s.buffer)])
  }

  lemma NextBuffer(parse: Parser, s: Socket)
    requires FirstNewline(s.buffer) < |s.buffer|
    ensures Next(parse, s).buffer == s.buffer[FirstNewline(s.buffer) + 1..]
  {
    TakeLineKeepsBuffer(parse, s.(buffer := s.buffer[FirstNewline(s.buffer) + 1..]), s.buffer[..FirstNewline(s.buffer)]);
  }

  /** The framing loop: lines while there are any, then the bound on what is left. */
  function Drain(parse: Parser, s: Socket): Socket
    decreases |s.buffer|
  {
    if FirstNewline(s.buffer) == |s.buffer| then CheckRest(s)
    else
      NextBuffer(parse, s);
      if Next(parse, s).closed.Some? then Next(parse, s) else Drain(parse, Next(parse, s))
  }

  function Ingest(parse: Parser, s: Socket, chunk: string): Socket {
    if s.closed.Some? then s else Drain(parse, s.(buffer := s.buffer + chunk))
  }

  function Request(s: Socket, encodes: bool, writes: bool): Socket {
    if s.closed.Some? then s
    else
      var id := IdText(s.nextId + 1);
      var t := s.(nextId := s.nextId + 1);
      if !encodes then t.(log := t.log + [Settled(id, Unencodable)])
      else if writes then t.(pending := t.pending + [id])
      else Fail(t.(pending := t.pending + [id]), WriteFailed)
  }

  function Start(version: int, writes: bool): Socket {
    var s := Socket(version, "", false, Waiting, None, 0, [], []);
    if writes then s else Fail(s, WriteFailed)
  }

  // ---- Chunking does not matter -------------------------------------------------------------

  function Feed(parse: Parser, s: Socket, chunks: seq<string>): Socket
    decreases |chunks|
  {
    if chunks == [] then s else Feed(parse, Ingest(parse, s, chunks[0]), chunks[1..])
  }

  function Concat(chunks: seq<string>): string {
    if chunks == [] then "" else chunks[0] + Concat(chunks[1..])
  }

  /** All there is to see of a socket: once it is closed, what is left in the buffer is never read. */
  function Seen(s: Socket): Socket {
    if s.closed.Some? then s.(buffer := "") else s
  }

  /** An open socket holds one unfinished line within the bound. */
  predicate Framed(s: Socket) {
    s.closed.None? ==> FirstNewline(s.buffer) == |s.buffer| && Bytes(s.buffer) <= MAX_LINE_BYTES
  }

  lemma {:induction false} DrainFrames(parse: Parser, s: Socket)
    ensures Framed(Drain(parse, s))
    decreases |s.buffer|
  {
    if FirstNewline(s.buffer) < |s.buffer| {
      NextBuffer(parse, s);
      if Next(parse, s).closed.None? {
        DrainFrames(parse, Next(parse, s));
      }
    }
  }

  lemma FirstLineOfSum(a: string, b: string)
    requires FirstNewline(a) < |a|
    ensures var i := FirstNewline(a); FirstNewline(a + b) == i && (a + b)[..i] == a[..i] && (a + b)[i + 1..] == a[i + 1..] + b
  {
    FirstNewlineOfSum(a, b);
  }

  lemma FirstLineTooLong(parse: Parser, s: Socket)
    requires s.closed.None? && FirstNewline(s.buffer) < |s.buffer| && Bytes(s.buffer[..FirstNewline(s.buffer)]) + 1 > MAX_LINE_BYTES
    ensures Drain(parse, s) == Fail(s.(buffer := s.buffer[FirstNewline(s.buffer) + 1..]), ProtocolBroken)
  {
  }

  /** A line that is already too long stays so, whether or not its end has come. */
  lemma TooLongStaysTooLong(parse: Parser, s: Socket, more: string)
    requires s.closed.None? && FirstNewline(s.buffer) == |s.buffer| && Bytes(s.buffer) > MAX_LINE_BYTES
    ensures Seen(Drain(parse, s.(buffer := s.buffer + more))) == Seen(Fail(s, ProtocolBroken))
  {
    var a := s.buffer;
    FirstNewlineOfSum(a, more);
    BytesOfSum(a, more);
    var j := FirstNewline(more);
    if j < |more| {
      assert (a + more)[..|a| + j] == a + more[..j];
      BytesOfSum(a, more[..j]);
      FirstLineTooLong(parse, s.(buffer := a + more));
    }
  }

  lemma NextOfSum(parse: Parser, s: Socket, more: string)
    requires FirstNewline(s.buffer) < |s.buffer|
    ensures FirstNewline(s.buffer + more) < |s.buffer + more|
    ensures Next(parse, s.(buffer := s.buffer + more)) == Next(parse, s).(buffer := Next(parse, s).buffer + more)
  {
    FirstLineOfSum(s.buffer, more);
    var i := FirstNewline(s.buffer);
    var rest, line := s.buffer[i + 1..], s.buffer[..i];
    TakeLineKeepsBuffer(parse, s.(buffer := rest), line);
    TakeLineIgnoresBuffer(parse, s.(buffer := rest), line, rest + more);
  }

  /** Draining the first part and then taking in the second is draining both at once. */
  lemma {:induction false} DrainOfSum(parse: Parser, s: Socket, more: string)
    requires s.closed.None?
    ensures Seen(Ingest(parse, Drain(parse, s), more)) == Seen(Drain(parse, s.(buffer := s.buffer + more)))
    decreases |s.buffer|
  {
    var i := FirstNewline(s.buffer);
    if i == |s.buffer| {
      if Bytes(s.buffer) > MAX_LINE_BYTES {
        TooLongStaysTooLong(parse, s, more);
      }
    } else {
      NextOfSum(parse, s, more);
      NextBuffer(parse, s);
      if Next(parse, s).closed.None? {
        DrainOfSum(parse, Next(parse, s), more);
      }
    }
  }

  lemma TakeLineIgnoresBuffer(parse: Parser, s: Socket, line: string, other: string)
    ensures TakeLine(parse, s.(buffer := other), line) == TakeLine(parse, s, line).(buffer := other)
  {
    ConsumeIgnoresBuffer(parse, s, line, other);
  }

  lemma ConsumeIgnoresBuffer(parse: Parser, s: Socket, line: string, other: string)
    ensures Consume(parse, s.(buffer := other), line) == Consume(parse, s, line).(buffer := other)
  {
    FailIgnoresBuffer(s, ProtocolBroken, other);
    FailIgnoresBuffer(s, VersionMismatch, other);
  }

  lemma FailIgnoresBuffer(s: Socket, why: Why, other: string)
    ensures Fail(s.(buffer := other), why) == Fail(s, why).(buffer := other)
  {
  }

  lemma IngestOfSum(parse: Parser, s: Socket, a: string, b: string)
    ensures Seen(Ingest(parse, Ingest(parse, s, a), b)) == Seen(Ingest(parse, s, a + b))
  {
    if s.closed.None? {
      var t := s.(buffer := s.buffer + a);
      assert s.(buffer := s.buffer + (a + b)) == t.(buffer := t.buffer + b) by {
        assert s.buffer + a + b == s.buffer + (a + b);
      }
      DrainOfSum(parse, t, b);
    }
  }

  lemma IngestNothing(parse: Parser, s: Socket)
    requires Framed(s)
    ensures Ingest(parse, s, "") == s
  {
    assert s.buffer + "" == s.buffer;
  }

  /** However the text is cut into chunks, the socket ends as if it had come at once. */
  lemma {:induction false} ChunkingNeverMatters(parse: Parser, s: Socket, chunks: seq<string>)
    requires Framed(s)
    ensures Seen(Feed(parse, s, chunks)) == Seen(Ingest(parse, s, Concat(chunks)))
    decreases |chunks|
  {
    if chunks == [] {
      IngestNothing(parse, s);
    } else {
      var t := Ingest(parse, s, chunks[0]);
      if s.closed.None? {
        DrainFrames(parse, s.(buffer := s.buffer + chunks[0]));
      }
      ChunkingNeverMatters(parse, t, chunks[1..]);
      IngestOfSum(parse, s, chunks[0], Concat(chunks[1..]));
    }
  }

  /** Two cuttings of one text end alike. */
  lemma CuttingsAgree(parse: Parser, s: Socket, one: seq<string>, two: seq<string>)
    requires Framed(s) && Concat(one) == Concat(two)
    ensures Seen(Feed(parse, s, one)) == Seen(Feed(parse, s, two))
  {
    ChunkingNeverMatters(parse, s, one);
    ChunkingNeverMatters(parse, s, two);
  }

  // ---- The line-by-line meaning ------------------------------------------------------------

  /** The complete lines of a text. */
  function Lines(s: string): seq<string> {
    Split(s)[..|Split(s)| - 1]
  }

  /** What follows the last newline. */
  function Rest(s: string): string {
    Split(s)[|Split(s)| - 1]
  }

  function TakeLines(parse: Parser, s: Socket, lines: seq<string>): Socket
    decreases |lines|
  {
    if lines == [] || s.closed.Some? then s else TakeLines(parse, TakeLine(parse, s, lines[0]), lines[1..])
  }

  /** A stream means its lines, taken one after another up to the first failure, and a bounded rest. */
  function Meaning(parse: Parser, s: Socket, text: string): Socket {
    var t := TakeLines(parse, s.(buffer := ""), Lines(text));
    if t.closed.Some? then t else Seen(CheckRest(t.(buffer := Rest(text))))
  }

  lemma LineAndRest(line: string, rest: string)
    requires '\n' !in line
    ensures Lines(line + "\n" + rest) == [line] + Lines(rest) && Rest(line + "\n" + rest) == Rest(rest)
  {
    SplitStep(line, rest);
  }

  lemma CutAt(text: string, i: nat)
    requires i < |text| && text[i] == '\n'
    ensures text == text[..i] + "\n" + text[i + 1..]
  {
    var a, b := text[..i], text[i + 1..];
    assert text == a + [text[i]] + b;
  }

  lemma FirstLine(text: string)
    requires FirstNewline(text) < |text|
    ensures var i := FirstNewline(text); Lines(text) == [text[..i]] + Lines(text[i + 1..]) && Rest(text) == Rest(text[i + 1..])
  {
    CutAt(text, FirstNewline(text));
    LineAndRest(text[..FirstNewline(text)], text[FirstNewline(text) + 1..]);
  }

  lemma NextIgnoresBuffer(parse: Parser, s: Socket)
    requires FirstNewline(s.buffer) < |s.buffer|
    ensures Next(parse, s).(buffer := "") == TakeLine(parse, s.(buffer := ""), s.buffer[..FirstNewline(s.buffer)])
  {
    var i := FirstNewline(s.buffer);
    TakeLineIgnoresBuffer(parse, s.(buffer := s.buffer[i + 1..]), s.buffer[..i], "");
  }

  lemma FirstOfLines(parse: Parser, s: Socket, line: string, rest: seq<string>)
    requires s.closed.None?
    ensures TakeLines(parse, s, [line] + rest) == TakeLines(parse, TakeLine(parse, s, line), rest)
  {
    assert ([line] + rest)[1..] == rest;
  }

  lemma ClosedStays(parse: Parser, s: Socket, lines: seq<string>)
    requires s.closed.Some?
    ensures TakeLines(parse, s, lines) == s
  {
  }

  lemma MeaningGoesOn(parse: Parser, s: Socket, text: string, t: Socket)
    requires s.closed.None? && FirstNewline(text) < |text|
    requires t.(buffer := "") == TakeLine(parse, s.(buffer := ""), text[..FirstNewline(text)])
    ensures Meaning(parse, s, text) == if t.closed.Some? then Seen(t) else Meaning(parse, t, text[FirstNewline(text) + 1..])
  {
    FirstLine(text);
    var i := FirstNewline(text);
    FirstOfLines(parse, s.(buffer := ""), text[..i], Lines(text[i + 1..]));
    if t.closed.Some? {
      ClosedStays(parse, t.(buffer := ""), Lines(text[i + 1..]));
    }
  }

  lemma {:induction false} DrainMeans(parse: Parser, s: Socket)
    requires s.closed.None?
    ensures Seen(Drain(parse, s)) == Meaning(parse, s, s.buffer)
    decreases |s.buffer|
  {
    if FirstNewline(s.buffer) < |s.buffer| {
      NextBuffer(parse, s);
      NextIgnoresBuffer(parse, s);
      MeaningGoesOn(parse, s, s.buffer, Next(parse, s));
      if Next(parse, s).closed.None? {
        DrainMeans(parse, Next(parse, s));
      }
    } else {
    }
  }

  /** Any cutting of the stream is processed as its lines, overlong lines included. */
  lemma StreamMeansItsLines(parse: Parser, s: Socket, chunks: seq<string>)
    requires s.closed.None? && Framed(s)
    ensures Seen(Feed(parse, s, chunks)) == Meaning(parse, s, s.buffer + Concat(chunks))
  {
    ChunkingNeverMatters(parse, s, chunks);
    DrainMeans(parse, s.(buffer := s.buffer + Concat(chunks)));
  }

  // ---- Runs -----------------------------------------------------------------------------------

  datatype Event = Chunk(text: string) | Ask(encodes: bool, writes: bool) | Deadline(id: string) | NoHandshake | Gone | CloseCall

  function After(parse: Parser, s: Socket, e: Event): Socket {
    match e
    case Chunk(text) => Ingest(parse, s, text)
    case Ask(encodes, writes) => Request(s, encodes, writes)
    case Deadline(id) => Settle(s, id, TimedOut)
    case NoHandshake => if s.ready.Waiting? then Fail(s, Unavailable) else s
    case Gone => Fail(s, Unavailable)
    case CloseCall => Fail(s, Unavailable)
  }

  function Run(parse: Parser, s: Socket, events: seq<Event>): Socket
    decreases |events|
  {
    if events == [] then s else After(parse, Run(parse, s, events[..|events| - 1]), events[|events| - 1])
  }

  predicate InLog(s: Socket, id: string) {
    exists i :: 0 <= i < |s.log| && s.log[i].id == id
  }

  predicate Waits(s: Socket, id: string) {
    id in s.pending
  }

  ghost predicate Issued(s: Socket, id: string) {
    exists n: nat :: 1 <= n <= s.nextId && id == IdText(n)
  }

  ghost predicate OneSettlement(log: seq<Settled>) {
    forall i, j :: 0 <= i < j < |log| ==> log[i].id != log[j].id
  }

  ghost predicate NoRepeats(ids: seq<string>) {
    forall i, j :: 0 <= i < j < |ids| ==> ids[i] != ids[j]
  }

  /** Every id handed out is waiting or settled, never both, and settled at most once. */
  ghost predicate Tracked(s: Socket) {
    && NoRepeats(s.pending) && OneSettlement(s.log)
    && (forall id :: Waits(s, id) ==> !InLog(s, id))
    && (forall id :: Waits(s, id) || InLog(s, id) <==> Issued(s, id))
  }

  ghost predicate Sound(s: Socket) {
    Tracked(s) && Framed(s) && Handshakes(s)
  }

  lemma Logged(s: Socket, more: seq<Settled>, id: string)
    ensures InLog(s.(log := s.log + more), id) <==> InLog(s, id) || exists i :: 0 <= i < |more| && more[i].id == id
  {
    var log := s.log + more;
    if InLog(s, id) {
      var i :| 0 <= i < |s.log| && s.log[i].id == id;
      assert log[i].id == id;
    }
    if i :| 0 <= i < |more| && more[i].id == id {
      assert log[|s.log| + i].id == id;
    }
  }

  lemma DropsAre(pending: seq<string>, why: Why, id: string)
    ensures (exists i :: 0 <= i < |pending| && Drops(pending, why)[i].id == id) <==> id in pending
  {
    if id in pending {
      var i :| 0 <= i < |pending| && pending[i] == id;
      assert Drops(pending, why)[i].id == id;
    }
  }

  lemma SameIssued(s: Socket, t: Socket)
    requires s.nextId == t.nextId
    ensures forall id :: Issued(s, id) <==> Issued(t, id)
  {
  }

  lemma FailTracks(s: Socket, why: Why)
    requires Tracked(s)
    ensures Tracked(Fail(s, why))
  {
    if s.closed.None? {
      var t := Fail(s, why);
      var more := Drops(s.pending, why);
      SameIssued(s, t);
      forall id ensures InLog(t, id) <==> InLog(s, id) || Waits(s, id) {
        Logged(s, more, id);
        DropsAre(s.pending, why, id);
      }
      forall i, j | 0 <= i < j < |t.log| ensures t.log[i].id != t.log[j].id {
        if i < |s.log| <= j {
          assert Waits(s, t.log[j].id) && InLog(s, t.log[i].id);
        }
      }
    }
  }

  lemma {:induction false} WithoutHasNoRepeats(ids: seq<string>, id: string)
    requires NoRepeats(ids)
    ensures NoRepeats(Without(ids, id))
  {
    if ids != [] {
      assert ids[0] !in ids[1..] && NoRepeats(ids[1..]);
      WithoutHasNoRepeats(ids[1..], id);
      assert ids[0] !in Without(ids[1..], id);
    }
  }

  lemma SettleTracks(s: Socket, id: string, outcome: Outcome)
    requires Tracked(s)
    ensures Tracked(Settle(s, id, outcome))
  {
    if id in s.pending {
      var t := Settle(s, id, outcome);
      WithoutHasNoRepeats(s.pending, id);
      SameIssued(s, t);
      forall x ensures InLog(t, x) <==> InLog(s, x) || x == id {
        Logged(s, [Settled(id, outcome)], x);
        assert x == id ==> [Settled(id, outcome)][0].id == x;
      }
      assert Waits(s, id);
      forall i, j | 0 <= i < j < |t.log| ensures t.log[i].id != t.log[j].id {
        assert i < |s.log| ==> InLog(s, t.log[i].id);
      }
    }
  }

  lemma FreshId(s: Socket)
    ensures !Issued(s, IdText(s.nextId + 1))
    ensures forall id :: Issued(s.(nextId := s.nextId + 1), id) <==> Issued(s, id) || id == IdText(s.nextId + 1)
  {
    if Issued(s, IdText(s.nextId + 1)) {
      var n: nat :| 1 <= n <= s.nextId && IdText(s.nextId + 1) == IdText(n);
      IdTextIsInjective(s.nextId + 1, n);
    }
    var t := s.(nextId := s.nextId + 1);
    forall id ensures Issued(t, id) <==> Issued(s, id) || id == IdText(s.nextId + 1) {
      if n: nat :| 1 <= n <= t.nextId && id == IdText(n) {
        assert n <= s.nextId ==> Issued(s, id);
      }
      assert 1 <= s.nextId + 1 <= t.nextId;
    }
  }

  lemma RequestTracks(s: Socket, encodes: bool, writes: bool)
    requires Tracked(s)
    ensures Tracked(Request(s, encodes, writes))
  {
    if s.closed.None? {
      FreshId(s);
      var id := IdText(s.nextId + 1);
      if encodes {
        var t := s.(nextId := s.nextId + 1, pending := s.pending + [id]);
        forall x ensures InLog(t, x) <==> InLog(s, x) {
        }
        assert forall x :: Waits(t, x) <==> Waits(s, x) || x == id;
        SameIssued(s.(nextId := s.nextId + 1), t);
        FreshIsNoRepeat(s, id);
        FailTracks(t, WriteFailed);
      } else {
        UnencodableTracks(s);
      }
    }
  }

  lemma FreshIsNoRepeat(s: Socket, id: string)
    requires Tracked(s) && !Issued(s, id)
    ensures NoRepeats(s.pending + [id]) && !Waits(s, id) && !InLog(s, id)
  {
    assert !Waits(s, id) && !InLog(s, id);
    var more := s.pending + [id];
    forall i, j | 0 <= i < j < |more| ensures more[i] != more[j] {
      assert more[i] == s.pending[i];
    }
  }

  lemma UnencodableTracks(s: Socket)
    requires Tracked(s)
    ensures var id := IdText(s.nextId + 1); Tracked(s.(nextId := s.nextId + 1, log := s.log + [Settled(id, Unencodable)]))
  {
    FreshId(s);
    var id := IdText(s.nextId + 1);
    FreshIsNoRepeat(s, id);
    var more := [Settled(id, Unencodable)];
    var t := s.(nextId := s.nextId + 1, log := s.log + more);
    SameIssued(s.(nextId := s.nextId + 1), t);
    forall x ensures InLog(t, x) <==> InLog(s, x) || x == id {
      Logged(s, more, x);
      assert more[0].id == id;
      assert InLog(t, x) <==> InLog(s.(log := s.log + more), x);
    }
    forall i, j | 0 <= i < j < |t.log| ensures t.log[i].id != t.log[j].id {
      assert i < |s.log| ==> InLog(s, t.log[i].id);
    }
  }

  ghost predicate Handshakes(s: Socket) {
    && (s.closed.Some? ==> s.pending == [])
    && (s.ready.Opened? <==> s.acknowledged) && (s.ready.TurnedAway? ==> s.closed.Some?) && (s.ready.Waiting? ==> s.closed.None?)
  }

  lemma TrackedIgnoresBuffer(s: Socket, t: Socket)
    requires Tracked(s) && t == s.(buffer := t.buffer, acknowledged := t.acknowledged, ready := t.ready)
    ensures Tracked(t)
  {
    SameIssued(s, t);
    assert forall id :: InLog(s, id) <==> InLog(t, id);
    assert forall id :: Waits(s, id) <==> Waits(t, id);
  }

  lemma TakeLineKeeps(parse: Parser, s: Socket, line: string)
    requires Tracked(s) && Handshakes(s) && s.closed.None?
    ensures Tracked(TakeLine(parse, s, line)) && Handshakes(TakeLine(parse, s, line))
  {
    FailTracks(s, ProtocolBroken);
    FailTracks(s, VersionMismatch);
    match parse(line)
    case Some(Failure(id, code)) => SettleTracks(s, id, Refused(code));
    case Some(Reply(id, result)) => SettleTracks(s, id, Resolved(result));
    case Some(Ack(v)) => TrackedIgnoresBuffer(s, s.(acknowledged := true, ready := if s.ready.Waiting? then Opened else s.ready));
    case _ =>
  }

  lemma {:induction false} DrainKeeps(parse: Parser, s: Socket)
    requires Tracked(s) && Handshakes(s) && s.closed.None?
    ensures Tracked(Drain(parse, s)) && Handshakes(Drain(parse, s))
    decreases |s.buffer|
  {
    if FirstNewline(s.buffer) == |s.buffer| {
      FailTracks(s, ProtocolBroken);
    } else {
      NextBuffer(parse, s);
      TrackedIgnoresBuffer(s, s.(buffer := s.buffer[FirstNewline(s.buffer) + 1..]));
      TakeLineKeeps(parse, s.(buffer := s.buffer[FirstNewline(s.buffer) + 1..]), s.buffer[..FirstNewline(s.buffer)]);
      if Next(parse, s).closed.None? {
        DrainKeeps(parse, Next(parse, s));
      }
    }
  }

  lemma EventKeeps(parse: Parser, s: Socket, e: Event)
    requires Sound(s)
    ensures Sound(After(parse, s, e))
  {
    match e
    case Chunk(text) =>
      if s.closed.None? {
        TrackedIgnoresBuffer(s, s.(buffer := s.buffer + text));
        DrainKeeps(parse, s.(buffer := s.buffer + text));
        DrainFrames(parse, s.(buffer := s.buffer + text));
      }
    case Ask(encodes, writes) => RequestTracks(s, encodes, writes);
    case Deadline(id) => SettleTracks(s, id, TimedOut);
    case NoHandshake => FailTracks(s, Unavailable);
    case Gone => FailTracks(s, Unavailable);
    case CloseCall => FailTracks(s, Unavailable);
  }

  lemma {:induction false} RunIsSound(parse: Parser, version: int, writes: bool, events: seq<Event>)
    ensures Sound(Run(parse, Start(version, writes), events))
    decreases |events|
  {
    if events == [] {
    } else {
      RunIsSound(parse, version, writes, events[..|events| - 1]);
      EventKeeps(parse, Run(parse, Start(version, writes), events[..|events| - 1]), events[|events| - 1]);
    }
  }

  /**
   Over any run, the n-th request is waiting or has exactly one settlement; on a closed socket it
   has one.
   */
  lemma EachRequestSettlesOnce(parse: Parser, version: int, writes: bool, events: seq<Event>, n: nat)
    requires 1 <= n <= Run(parse, Start(version, writes), events).nextId
    ensures var s := Run(parse, Start(version, writes), events);
            && (Waits(s, IdText(n)) <==> !InLog(s, IdText(n)))
            && (forall i, j :: 0 <= i < |s.log| && 0 <= j < |s.log| && s.log[i].id == IdText(n) && s.log[j].id == IdText(n) ==> i == j)
            && (s.closed.Some? ==> InLog(s, IdText(n)))
  {
    var s := Run(parse, Start(version, writes), events);
    RunIsSound(parse, version, writes, events);
    assert Issued(s, IdText(n));
    assert Waits(s, IdText(n)) || InLog(s, IdText(n));
    assert Waits(s, IdText(n)) ==> !InLog(s, IdText(n));
  }

  // ---- What is settled stays settled ------------------------------------------------------------

  /** Later states keep every settlement, and a closed socket stays as it is. */
  ghost predicate Follows(s: Socket, t: Socket) {
    && s.log <= t.log && s.nextId <= t.nextId
    && (s.acknowledged ==> t.acknowledged)
    && (s.closed.Some? ==> t == s)
  }

  lemma TakeLineFollows(parse: Parser, s: Socket, line: string)
    requires s.closed.None?
    ensures Follows(s, TakeLine(parse, s, line))
  {
  }

  lemma {:induction false} DrainFollows(parse: Parser, s: Socket)
    requires s.closed.None?
    ensures Follows(s, Drain(parse, s))
    decreases |s.buffer|
  {
    if FirstNewline(s.buffer) < |s.buffer| {
      NextBuffer(parse, s);
      TakeLineFollows(parse, s.(buffer := s.buffer[FirstNewline(s.buffer) + 1..]), s.buffer[..FirstNewline(s.buffer)]);
      if Next(parse, s).closed.None? {
        DrainFollows(parse, Next(parse, s));
      }
    }
  }

  /** Whatever happens, no settlement is withdrawn or changed, and nothing moves a closed socket. */
  lemma EventFollows(parse: Parser, s: Socket, e: Event)
    requires Sound(s)
    ensures Follows(s, After(parse, s, e))
  {
    if e.Chunk? && s.closed.None? {
      DrainFollows(parse, s.(buffer := s.buffer + e.text));
    }
  }

  /** Over any run: the line of a reply whose request has settled, or was never made, changes nothing. */
  lemma LateRepliesChangeNothing(parse: Parser, version: int, writes: bool, events: seq<Event>, line: string, id: string)
    requires var s := Run(parse, Start(version, writes), events);
             && s.acknowledged && s.buffer == "" && (InLog(s, id) || !Issued(s, id))
    requires '\n' !in line && Bytes(line) + 1 <= MAX_LINE_BYTES
    requires parse(line).Some? && (parse(line).value.Reply? || parse(line).value.Failure?) && parse(line).value.id == id
    ensures var s := Run(parse, Start(version, writes), events); After(parse, s, Chunk(line + "\n")) == s
  {
    var s := Run(parse, Start(version, writes), events);
    RunIsSound(parse, version, writes, events);
    assert !Waits(s, id);
    if s.closed.None? {
      OneLine(parse, s, line);
    }
  }

  /** No settlement came from the daemon. */
  ghost predicate NoneAnswered(s: Socket) {
    forall i :: 0 <= i < |s.log| ==> !s.log[i].outcome.Resolved? && !s.log[i].outcome.Refused?
  }

  lemma TakeLineAnswersNone(parse: Parser, s: Socket, line: string)
    requires NoneAnswered(s)
    ensures TakeLine(parse, s, line).acknowledged || NoneAnswered(TakeLine(parse, s, line))
  {
  }

  lemma TakeLineStaysOpened(parse: Parser, s: Socket, line: string)
    requires s.acknowledged
    ensures TakeLine(parse, s, line).acknowledged
  {
  }

  lemma {:induction false} DrainAnswersNone(parse: Parser, s: Socket)
    requires s.acknowledged || NoneAnswered(s)
    ensures Drain(parse, s).acknowledged || NoneAnswered(Drain(parse, s))
    decreases |s.buffer|
  {
    if FirstNewline(s.buffer) < |s.buffer| {
      NextBuffer(parse, s);
      var line, t := s.buffer[..FirstNewline(s.buffer)], s.(buffer := s.buffer[FirstNewline(s.buffer) + 1..]);
      if s.acknowledged {
        TakeLineStaysOpened(parse, t, line);
      } else {
        TakeLineAnswersNone(parse, t, line);
      }
      if Next(parse, s).closed.None? {
        DrainAnswersNone(parse, Next(parse, s));
      }
    }
  }

  /** Over any run: until the handshake is acknowledged, no request is resolved or refused by the daemon. */
  lemma {:induction false} NothingResolvesBeforeTheHandshake(parse: Parser, version: int, writes: bool, events: seq<Event>)
    ensures var s := Run(parse, Start(version, writes), events); s.acknowledged || NoneAnswered(s)
    decreases |events|
  {
    if events != [] {
      var s, e := Run(parse, Start(version, writes), events[..|events| - 1]), events[|events| - 1];
      NothingResolvesBeforeTheHandshake(parse, version, writes, events[..|events| - 1]);
      if e.Chunk? && s.closed.None? {
        DrainAnswersNone(parse, s.(buffer := s.buffer + e.text));
      }
    }
  }

  // ---- What one line does ---------------------------------------------------------------------------

  predicate IsPlainLine(line: string) {
    '\n' !in line && !AllBlank(line) && Bytes(line) + 1 <= MAX_LINE_BYTES
  }

  /** A line and its newline, arriving with nothing buffered. */
  lemma OneLine(parse: Parser, s: Socket, line: string)
    requires s.closed.None? && s.buffer == "" && '\n' !in line
    ensures After(parse, s, Chunk(line + "\n")) == TakeLine(parse, s, line)
  {
    var t := s.(buffer := line + "\n");
    FirstNewlineOfSum(line, "\n");
    NoNewline(line);
    assert s.buffer + (line + "\n") == line + "\n";
    assert t.buffer[..|line|] == line && t.buffer[|line| + 1..] == "";
    assert t.(buffer := "") == s;
    assert Next(parse, t) == TakeLine(parse, s, line);
    TakeLineKeepsBuffer(parse, s, line);
    assert FirstNewline("") == 0;
    var n := Next(parse, t);
    if n.closed.None? {
      assert Drain(parse, n) == CheckRest(n) == n;
    }
  }

  /** Just these went, all at once and in order, and the socket is closed. */
  ghost predicate ClosesWith(s: Socket, t: Socket, why: Why) {
    && t.closed == Some(why) && t.pending == [] && t.nextId == s.nextId && t.acknowledged == s.acknowledged
    && |t.log| == |s.log| + |s.pending| && t.log[..|s.log|] == s.log
    && (forall i :: 0 <= i < |s.pending| ==> t.log[|s.log| + i] == Settled(s.pending[i], Dropped(why)))
    && t.ready == if s.ready == Waiting then TurnedAway(why) else s.ready
  }

  /** Just this request has settled. */
  ghost predicate SettlesOnly(s: Socket, t: Socket, id: string, outcome: Outcome) {
    && t.log == s.log + [Settled(id, outcome)]
    && (forall x :: x in t.pending <==> x in s.pending && x != id)
    && t == s.(log := t.log, pending := t.pending)
  }

  /**
   Over any run, on an open and acknowledged socket with nothing buffered: a reply to a waiting request
   resolves it with its result, a failure refuses it with its code, and nothing else changes.
   */
  lemma RepliesSettleTheirRequest(parse: Parser, version: int, writes: bool, events: seq<Event>, line: string)
    requires var s := Run(parse, Start(version, writes), events); s.closed.None? && s.acknowledged && s.buffer == ""
    requires IsPlainLine(line) && parse(line).Some?
    ensures var s, f := Run(parse, Start(version, writes), events), parse(line).value; var t := After(parse, s, Chunk(line + "\n"));
            && (f.Reply? && Waits(s, f.id) ==> SettlesOnly(s, t, f.id, Resolved(f.result)))
            && (f.Failure? && Waits(s, f.id) ==> SettlesOnly(s, t, f.id, Refused(f.code)))
  {
    OneLine(parse, Run(parse, Start(version, writes), events), line);
  }

  /** What no daemon sends after the handshake closes the socket; a blank line is nothing. */
  lemma StrangeLinesClose(parse: Parser, s: Socket, line: string)
    requires s.closed.None? && s.buffer == "" && '\n' !in line
    ensures var t := After(parse, s, Chunk(line + "\n"));
            && (Bytes(line) + 1 > MAX_LINE_BYTES ==> ClosesWith(s, t, ProtocolBroken))
            && (AllBlank(line) && Bytes(line) + 1 <= MAX_LINE_BYTES ==> t == s)
            && (IsPlainLine(line) && parse(line).None? ==> ClosesWith(s, t, ProtocolBroken))
            && (IsPlainLine(line) && s.acknowledged && parse(line).Some? && !parse(line).value.Reply? && !parse(line).value.Failure? ==>
                  ClosesWith(s, t, ProtocolBroken))
  {
    OneLine(parse, s, line);
    FailCloses(s, ProtocolBroken);
  }

  lemma FailCloses(s: Socket, why: Why)
    requires s.closed.None?
    ensures ClosesWith(s, Fail(s, why), why)
  {
  }

  /** The handshake: the daemon's version opens the socket exactly when it is the client's; anything else closes it. */
  lemma HandshakeLine(parse: Parser, s: Socket, line: string)
    requires s.closed.None? && s.buffer == "" && !s.acknowledged && IsPlainLine(line) && parse(line).Some?
    ensures var t, f := After(parse, s, Chunk(line + "\n")), parse(line).value;
            if f == Ack(s.version) then
              t == s.(acknowledged := true, ready := t.ready) && t.ready == (if s.ready == Waiting then Opened else s.ready)
            else
              ClosesWith(s, t, if f.Ack? || f == ErrorLine("PROTOCOL_MISMATCH") then VersionMismatch else ProtocolBroken)
  {
    OneLine(parse, s, line);
    FailCloses(s, ProtocolBroken);
    FailCloses(s, VersionMismatch);
  }

  /** A socket starts open and unacknowledged, waiting for its handshake, unless the hello cannot be written. */
  lemma StartIs(version: int, writes: bool)
    ensures var s := Start(version, writes);
            && s.version == version && s.buffer == "" && !s.acknowledged && s.nextId == 0 && s.pending == [] && s.log == []
            && (writes ==> s.closed == None && s.ready == Waiting)
            && (!writes ==> s.closed == Some(WriteFailed) && s.ready == TurnedAway(WriteFailed))
  {
  }

  /** What asking and the other events do on an open socket. */
  lemma EventsDo(parse: Parser, s: Socket, e: Event)
    requires s.closed.None? && !e.Chunk?
    ensures var t := After(parse, s, e);
            match e
            case Ask(encodes, writes) =>
              var id, asked := IdText(s.nextId + 1), s.(nextId := s.nextId + 1);
              if !encodes then t == asked.(log := s.log + [Settled(id, Unencodable)])
              else if writes then t == asked.(pending := s.pending + [id])
              else ClosesWith(asked.(pending := s.pending + [id]), t, WriteFailed)
            case Deadline(id) => if id in s.pending then SettlesOnly(s, t, id, TimedOut) else t == s
            case NoHandshake => if s.ready == Waiting then ClosesWith(s, t, Unavailable) else t == s
            case _ => ClosesWith(s, t, Unavailable)
  {
    FailCloses(s, Unavailable);
    FailCloses(s.(nextId := s.nextId + 1, pending := s.pending + [IdText(s.nextId + 1)]), WriteFailed);
  }

  // ---- Every settlement has its cause ------------------------------------------------------------------

  /** All text that has arrived. */
  function StreamOf(events: seq<Event>): string
    decreases |events|
  {
    if events == [] then ""
    else StreamOf(events[..|events| - 1]) + if events[|events| - 1].Chunk? then events[|events| - 1].text else ""
  }

  /** A line brought this settlement, or the closing did. */
  predicate LineCauses(parse: Parser, e: Settled, lines: seq<string>, closed: Option<Why>) {
    match e.outcome
    case Resolved(r) => exists i :: 0 <= i < |lines| && parse(lines[i]) == Some(Reply(e.id, r))
    case Refused(code) => exists i :: 0 <= i < |lines| && parse(lines[i]) == Some(Failure(e.id, code))
    case Dropped(why) => closed == Some(why)
    case _ => false
  }

  predicate Caused(parse: Parser, e: Settled, events: seq<Event>, closed: Option<Why>) {
    match e.outcome
    case TimedOut => Deadline(e.id) in events
    case Unencodable => exists i :: 0 <= i < |events| && events[i].Ask? && !events[i].encodes
    case _ => LineCauses(parse, e, Lines(StreamOf(events)), closed)
  }

  lemma MoreLinesCause(parse: Parser, e: Settled, a: seq<string>, lines: seq<string>, b: seq<string>, closed: Option<Why>)
    requires LineCauses(parse, e, lines, closed)
    ensures LineCauses(parse, e, a + lines + b, closed)
  {
    if i :| 0 <= i < |lines| && e.outcome.Resolved? && parse(lines[i]) == Some(Reply(e.id, e.outcome.result)) {
      assert (a + lines + b)[|a| + i] == lines[i];
    }
    if i :| 0 <= i < |lines| && e.outcome.Refused? && parse(lines[i]) == Some(Failure(e.id, e.outcome.code)) {
      assert (a + lines + b)[|a| + i] == lines[i];
    }
  }

  /** What these steps added to the log came from these lines. */
  ghost predicate AddsCaused(parse: Parser, s: Socket, t: Socket, lines: seq<string>) {
    s.log <= t.log && forall i :: |s.log| <= i < |t.log| ==> LineCauses(parse, t.log[i], lines, t.closed)
  }

  lemma TakeLineCauses(parse: Parser, s: Socket, line: string)
    requires s.closed.None?
    ensures AddsCaused(parse, s, TakeLine(parse, s, line), [line])
  {
    var t := TakeLine(parse, s, line);
    assert [line][0] == line;
  }

  lemma AddsMore(parse: Parser, s: Socket, t: Socket, u: Socket, line: string, lines: seq<string>)
    requires AddsCaused(parse, s, t, [line]) && t.closed.None? && AddsCaused(parse, t, u, lines)
    ensures AddsCaused(parse, s, u, [line] + lines)
  {
    forall i | |s.log| <= i < |u.log| ensures LineCauses(parse, u.log[i], [line] + lines, u.closed) {
      if i < |t.log| {
        assert u.log[i] == t.log[i] && LineCauses(parse, t.log[i], [line], None);
        OpenCauses(parse, t.log[i], [line], u.closed);
        MoreLinesCause(parse, u.log[i], [], [line], lines, u.closed);
        assert [] + [line] + lines == [line] + lines;
      } else {
        MoreLinesCause(parse, u.log[i], [line], lines, [], u.closed);
        assert [line] + lines + [] == [line] + lines;
      }
    }
  }

  lemma OpenCauses(parse: Parser, e: Settled, lines: seq<string>, closed: Option<Why>)
    requires LineCauses(parse, e, lines, None)
    ensures LineCauses(parse, e, lines, closed)
  {
  }

  lemma {:induction false} DrainCauses(parse: Parser, s: Socket)
    requires s.closed.None?
    ensures AddsCaused(parse, s, Drain(parse, s), Lines(s.buffer))
    ensures Drain(parse, s).closed.None? ==> Drain(parse, s).buffer == Rest(s.buffer)
    decreases |s.buffer|
  {
    var i := FirstNewline(s.buffer);
    if i < |s.buffer| {
      var n := Next(parse, s);
      NextBuffer(parse, s);
      FirstLine(s.buffer);
      TakeLineCauses(parse, s.(buffer := s.buffer[i + 1..]), s.buffer[..i]);
      if n.closed.None? {
        DrainCauses(parse, n);
        AddsMore(parse, s, n, Drain(parse, n), s.buffer[..i], Lines(s.buffer[i + 1..]));
      } else {
        FirstCauses(parse, s, n, s.buffer[..i], Lines(s.buffer[i + 1..]));
      }
    }
  }

  lemma FirstCauses(parse: Parser, s: Socket, n: Socket, line: string, lines: seq<string>)
    requires AddsCaused(parse, s, n, [line])
    ensures AddsCaused(parse, s, n, [line] + lines)
  {
    forall i | |s.log| <= i < |n.log| ensures LineCauses(parse, n.log[i], [line] + lines, n.closed) {
      MoreLinesCause(parse, n.log[i], [], [line], lines, n.closed);
      assert [] + [line] + lines == [line] + lines;
    }
  }

  lemma {:induction false} LinesOfSum(a: string, b: string)
    ensures Lines(a + b) == Lines(a) + Lines(Rest(a) + b) && Rest(a + b) == Rest(Rest(a) + b)
    decreases |a|
  {
    var i := FirstNewline(a);
    if i == |a| {
      assert Rest(a) == a && Lines(a) == [];
    } else {
      FirstLine(a);
      FirstLineOfMore(a, b);
      LinesOfSum(a[i + 1..], b);
    }
  }

  lemma FirstLineOfMore(a: string, b: string)
    requires FirstNewline(a) < |a|
    ensures var i := FirstNewline(a); Lines(a + b) == [a[..i]] + Lines(a[i + 1..] + b) && Rest(a + b) == Rest(a[i + 1..] + b)
  {
    var i := FirstNewline(a);
    CutAt(a, i);
    LineAndMore(a[..i], a[i + 1..], b);
  }

  lemma LineAndMore(line: string, rest: string, more: string)
    requires '\n' !in line
    ensures Lines(line + "\n" + rest + more) == [line] + Lines(rest + more) && Rest(line + "\n" + rest + more) == Rest(rest + more)
  {
    assert line + "\n" + rest + more == line + "\n" + (rest + more);
    LineAndRest(line, rest + more);
  }

  ghost predicate AllCaused(parse: Parser, s: Socket, events: seq<Event>) {
    && (forall i :: 0 <= i < |s.log| ==> Caused(parse, s.log[i], events, s.closed))
    && (s.closed.None? ==> s.buffer == Rest(StreamOf(events)))
  }

  lemma StreamGrows(events: seq<Event>, e: Event)
    ensures StreamOf(events + [e]) == StreamOf(events) + if e.Chunk? then e.text else ""
    ensures exists more :: Lines(StreamOf(events + [e])) == Lines(StreamOf(events)) + more
  {
    assert (events + [e])[..|events|] == events;
    LinesOfSum(StreamOf(events), if e.Chunk? then e.text else "");
  }

  lemma StaysCaused(parse: Parser, x: Settled, events: seq<Event>, e: Event, before: Option<Why>, closed: Option<Why>)
    requires Caused(parse, x, events, before) && (before.Some? ==> closed == before)
    ensures Caused(parse, x, events + [e], closed)
  {
    var more := events + [e];
    StreamGrows(events, e);
    match x.outcome
    case TimedOut => assert forall y :: y in events ==> y in more;
    case Unencodable =>
      var i :| 0 <= i < |events| && events[i].Ask? && !events[i].encodes;
      assert more[i] == events[i];
    case _ =>
      var ls :| Lines(StreamOf(more)) == Lines(StreamOf(events)) + ls;
      MoreLinesCause(parse, x, [], Lines(StreamOf(events)), ls, before);
      assert [] + Lines(StreamOf(events)) + ls == Lines(StreamOf(more));
      if before.None? {
        OpenCauses(parse, x, Lines(StreamOf(more)), closed);
      }
  }

  lemma ChunkCauses(parse: Parser, s: Socket, events: seq<Event>, text: string)
    requires AllCaused(parse, s, events) && s.closed.None?
    ensures AllCaused(parse, After(parse, s, Chunk(text)), events + [Chunk(text)])
  {
    var fed, t, more := s.(buffer := s.buffer + text), After(parse, s, Chunk(text)), events + [Chunk(text)];
    DrainCauses(parse, fed);
    StreamGrows(events, Chunk(text));
    LinesOfSum(StreamOf(events), text);
    forall i | 0 <= i < |t.log| ensures Caused(parse, t.log[i], more, t.closed) {
      if i < |s.log| {
        assert t.log[i] == s.log[i];
        StaysCaused(parse, s.log[i], events, Chunk(text), s.closed, t.closed);
      } else {
        MoreLinesCause(parse, t.log[i], Lines(StreamOf(events)), Lines(fed.buffer), [], t.closed);
        assert Lines(StreamOf(events)) + Lines(fed.buffer) + [] == Lines(StreamOf(more));
      }
    }
  }

  lemma OtherCauses(parse: Parser, s: Socket, events: seq<Event>, e: Event)
    requires AllCaused(parse, s, events) && s.closed.None? && !e.Chunk?
    ensures AllCaused(parse, After(parse, s, e), events + [e])
  {
    var t, more := After(parse, s, e), events + [e];
    OtherAdds(parse, s, events, e);
    StreamGrows(events, e);
    assert more[|events|] == e && StreamOf(events) + "" == StreamOf(events);
    forall i | 0 <= i < |t.log| ensures Caused(parse, t.log[i], more, t.closed) {
      if i < |s.log| {
        assert t.log[i] == s.log[i];
        StaysCaused(parse, s.log[i], events, e, s.closed, t.closed);
      }
    }
  }

  /** What these steps added has its cause, and an open socket buffers what it did. */
  ghost predicate Adds(parse: Parser, s: Socket, t: Socket, events: seq<Event>) {
    && s.log <= t.log && (t.closed.None? ==> t.buffer == s.buffer)
    && forall i :: |s.log| <= i < |t.log| ==> Caused(parse, t.log[i], events, t.closed)
  }

  lemma ClosingAdds(parse: Parser, s: Socket, t: Socket, why: Why, events: seq<Event>)
    requires ClosesWith(s, t, why)
    ensures Adds(parse, s, t, events)
  {
    forall i | |s.log| <= i < |t.log| ensures t.log[i].outcome == Dropped(why) {
      assert t.log[|s.log| + (i - |s.log|)] == Settled(s.pending[i - |s.log|], Dropped(why));
    }
  }

  lemma OtherAdds(parse: Parser, s: Socket, events: seq<Event>, e: Event)
    requires s.closed.None? && !e.Chunk?
    ensures Adds(parse, s, After(parse, s, e), events + [e])
  {
    var t, more := After(parse, s, e), events + [e];
    EventsDo(parse, s, e);
    assert more[|events|] == e;
    match e
    case Ask(encodes, writes) =>
      if encodes && !writes {
        ClosingAdds(parse, s.(nextId := s.nextId + 1, pending := s.pending + [IdText(s.nextId + 1)]), t, WriteFailed, more);
      }
    case Deadline(id) =>
    case NoHandshake =>
      if s.ready == Waiting {
        ClosingAdds(parse, s, t, Unavailable, more);
      }
    case _ => ClosingAdds(parse, s, t, Unavailable, more);
  }

  /**
   Over any run, every settlement has its cause: a result was brought by a reply line for the request
   in the text that arrived, a code by a failure line, a timeout by its deadline, a refusal to encode
   by a request that could not be, and a drop by the closing of the socket with that reason.
   */
  lemma {:induction false} SettlementsHaveCauses(parse: Parser, version: int, writes: bool, events: seq<Event>)
    ensures AllCaused(parse, Run(parse, Start(version, writes), events), events)
    decreases |events|
  {
    if events != [] {
      var front, e := events[..|events| - 1], events[|events| - 1];
      var s := Run(parse, Start(version, writes), front);
      SettlementsHaveCauses(parse, version, writes, front);
      assert events == front + [e];
      if s.closed.Some? {
        forall i | 0 <= i < |s.log| ensures Caused(parse, s.log[i], events, s.closed) {
          StaysCaused(parse, s.log[i], front, e, s.closed, s.closed);
        }
      } else if e.Chunk? {
        ChunkCauses(parse, s, front, e.text);
      } else {
        OtherCauses(parse, s, front, e);
      }
    }
  }

  // ---- The object -----------------------------------------------------------------------------------

  class DaemonClientSocket {
    const parse: Parser
    const version: int
    var buffer: string
    var acknowledged: bool
    var ready: Ready
    var closed: Option<Why>
    var nextId: nat
    var pending: seq<string>
    var log: seq<Settled>

    ghost function State(): Socket
      reads this
    {
      Socket(version, buffer, acknowledged, ready, closed, nextId, pending, log)
    }

    constructor (parse: Parser, version: int, writes: bool)
      ensures State() == Start(version, writes) && this.parse == parse
    {
      this.parse, this.version := parse, version;
      buffer, acknowledged, ready, closed, nextId, pending, log := "", false, Waiting, None, 0, [], [];
      new;
      if !writes {
        FailWith(WriteFailed);
      }
    }

    method FailWith(why: Why)
      modifies this
      ensures State() == Fail(old(State()), why)
    {
      if closed.Some? { return; }
      closed := Some(why);
      if ready.Waiting? {
        ready := TurnedAway(why);
      }
      RejectPending(why);
      pending := [];
    }

    method RejectPending(why: Why)
      modifies `log
      ensures log == old(log) + Drops(pending, why)
    {
      for i := 0 to |pending|
        invariant log == old(log) + Drops(pending, why)[..i]
      {
        log := log + [Settled(pending[i], Dropped(why))];
      }
    }

    method SettleOne(id: string, outcome: Outcome)
      modifies `pending, `log
      ensures State() == Settle(old(State()), id, outcome)
    {
      if id !in pending { return; }
      pending := Without(pending, id);
      log := log + [Settled(id, outcome)];
    }

    method ConsumeLine(line: string) returns (open: bool)
      requires closed.None?
      modifies this
      ensures State() == Consume(parse, old(State()), line) && open == closed.None?
    {
      match parse(line) {
        case None => FailWith(ProtocolBroken);
        case Some(f) =>
          if acknowledged {
            Answer(f);
          } else {
            Handshake(f);
          }
      }
      open := closed.None?;
    }

    method Handshake(f: Frame)
      requires closed.None? && !acknowledged
      modifies this
      ensures forall line :: parse(line) == Some(f) ==> State() == Consume(parse, old(State()), line)
    {
      match f
      case Ack(v) =>
        if v != version {
          FailWith(VersionMismatch);
        } else {
          acknowledged := true;
          if ready.Waiting? {
            ready := Opened;
          }
        }
      case ErrorLine(code) => FailWith(if code == "PROTOCOL_MISMATCH" then VersionMismatch else ProtocolBroken);
      case _ => FailWith(ProtocolBroken);
    }

    method Answer(f: Frame)
      requires closed.None? && acknowledged
      modifies this
      ensures forall line :: parse(line) == Some(f) ==> State() == Consume(parse, old(State()), line)
    {
      match f
      case Failure(id, code) => SettleOne(id, Refused(code));
      case Reply(id, result) => SettleOne(id, Resolved(result));
      case _ => FailWith(ProtocolBroken);
    }

    /** One turn of the framing loop. */
    method TakeNext() returns (open: bool)
      requires closed.None? && FirstNewline(buffer) < |buffer|
      modifies this
      ensures State() == Next(parse, old(State())) && open == closed.None?
    {
      var index := FirstNewline(buffer);
      var line := buffer[..index];
      buffer := buffer[index + 1..];
      open := true;
      if Bytes(line) + 1 > MAX_LINE_BYTES {
        FailWith(ProtocolBroken);
        open := false;
      } else if !AllBlank(line) {
        open := ConsumeLine(line);
      }
    }

    method IngestChunk(chunk: string)
      modifies this
      ensures State() == Ingest(parse, old(State()), chunk)
    {
      if closed.Some? { return; }
      buffer := buffer + chunk;
      while FirstNewline(buffer) < |buffer|
        invariant closed.None? && Drain(parse, State()) == Ingest(parse, old(State()), chunk)
        decreases |buffer|
      {
        NextBuffer(parse, State());
        var open := TakeNext();
        if !open { return; }
      }
      if Bytes(buffer) > MAX_LINE_BYTES {
        FailWith(ProtocolBroken);
      }
    }

    method Send(encodes: bool, writes: bool)
      modifies this
      ensures State() == Request(old(State()), encodes, writes)
    {
      if closed.Some? { return; }
      nextId := nextId + 1;
      var id := IdText(nextId);
      if !encodes {
        log := log + [Settled(id, Unencodable)];
        return;
      }
      pending := pending + [id];
      if !writes {
        FailWith(WriteFailed);
      }
    }
  }
}
