/** Printing and parsing undo each other: whatever the read schedule, the packets the driver thread returns are
    the messages the NCP sent, complete and in order. */
module Framing {
  import opened Bgapi
  import opened SerialLine
  import opened Receiver

  /** No reset is requested and no read fails; reads may be short or empty. */
  ghost predicate Quiet(l: LineState) {
    && !l.resetWanted
    && (forall i :: 0 <= i < |l.script| ==>
          l.script[i].got.UpTo? && !l.script[i].early && !l.script[i].late)
  }

  ghost predicate AllValid(messages: seq<Message>) {
    forall i :: 0 <= i < |messages| ==> messages[i].Valid()
  }

  ghost predicate Holds(p: Packet, header: Header, payload: seq<Byte>) {
    && p.header == header
    && |payload| <= |p.memory|
    && p.memory[..|payload|] == payload
  }

  ghost predicate Carries(p: Packet, m: Message) {
    Holds(p, m.Head(), m.payload)
  }

  /** The packets that gecko_get_event returned. */
  function Returns(log: seq<Mark>): seq<Packet> {
    if log == [] then []
    else
      var last := log[|log| - 1];
      Returns(log[..|log| - 1]) + if last.Returned? then [last.packet] else []
  }

  lemma {:induction false} ReturnsOfOneMore(log: seq<Mark>, mark: Mark)
    ensures Returns(log + [mark]) == Returns(log) + if mark.Returned? then [mark.packet] else []
  {
    assert (log + [mark])[..|log|] == log;
  }

  lemma {:induction false} QuietRead(l: LineState, want: nat)
    requires Quiet(l) && l.script != []
    ensures var (l', got) := Read(l, want);
            Quiet(l') && got.Data? && |got.bytes| <= want && l.rx == got.bytes + l'.rx
  {
  }

  lemma {:induction false} ReceiveQuiet(l: LineState, want: nat, acc: seq<Byte>)
    requires Quiet(l)
    ensures QuietFill(Receive(l, want, acc))
    decreases |l.script|
  {
    if want != 0 && l.script != [] {
      var (l', got) := Read(l, want);
      QuietRead(l, want);
      ReceiveQuiet(l', want - |got.bytes|, acc + got.bytes);
    }
  }

  ghost predicate QuietFill(read: (LineState, Fill)) {
    Quiet(read.0) && !read.1.Lost?
  }

  lemma {:induction false} ReadHeaderQuiet(l: LineState, acc: seq<Byte>)
    requires Quiet(l) && |acc| <= HEADER_LEN
    ensures var (l', fill) := ReadHeader(l, acc);
            && Quiet(l') && !fill.Lost?
            && fill.bytes + l'.rx == acc + l.rx
            && (fill.Stuck? ==> |fill.bytes| < HEADER_LEN)
    decreases |l.script|
  {
    if |acc| != HEADER_LEN && l.script != [] {
      var (l', got) := Read(l, HEADER_LEN - |acc|);
      QuietRead(l, HEADER_LEN - |acc|);
      assert acc + got.bytes + l'.rx == acc + (got.bytes + l'.rx);
      ReadHeaderQuiet(l', acc + got.bytes);
    }
  }

  lemma {:induction false} SplitAt<T>(a: seq<T>, b: seq<T>, c: seq<T>, d: seq<T>)
    requires a + b == c + d && |a| == |c|
    ensures a == c && b == d
  {
    assert a == (a + b)[..|a|];
    assert b == (a + b)[|a|..];
  }

  lemma {:induction false} FrontTaken<T>(taken: seq<T>, left: seq<T>, head: seq<T>, payload: seq<T>, rest: seq<T>)
    requires taken + left == head + payload + rest && |taken| == |head|
    ensures taken == head && left == payload + rest
  {
    assert head + payload + rest == head + (payload + rest);
    SplitAt(taken, left, head, payload + rest);
  }

  /** What is left of the line, seen from the end of the stream. */
  ghost predicate Rest(l: LineState, stream: seq<Byte>) {
    |l.rx| <= |stream| && l.rx == stream[|stream| - |l.rx|..]
  }

  /** The message went to the response packet, or to the one occupied slot of the ring. */
  ghost predicate Stored(
    s: Driver, s': Driver, outcome: Outcome, header: Header, payload: seq<Byte>, rest: seq<Byte>)
    requires s.Valid() && s'.Valid()
  {
    && s'.line.rx == rest && s'.r == s.r
    && if outcome.GotResponse? then
         s'.w == s.w && s'.log == s.log && Holds(s'.response, header, payload)
       else
         s'.w == Advance(s.r) && Holds(s'.slots[s.r], header, payload) && s'.log == s.log + [Accepted(header, payload)]
  }

  /** With a frame at the head of the line, gecko_wait_message stores exactly that message, or the schedule
      ends inside the frame. acc holds the start byte when the receiver was not booted. */
  lemma {:induction false} WholeFrame(s: Driver, acc: seq<Byte>, m: Message, rest: seq<Byte>)
    requires s.Valid() && s.w == s.r && Quiet(s.line) && m.Valid()
    requires |acc| < HEADER_LEN
    requires acc + s.line.rx == m.Frame() + rest
    ensures var (s', outcome) := AfterStart(s, acc);
            && Quiet(s'.line) && s'.booted == s.booted
            && if outcome.OutOfSchedule? then |rest| < |s'.line.rx| && Rest(s'.line, m.Frame() + rest)
               else Stored(s, s', outcome, m.Head(), m.payload, rest)
  {
    ReadHeaderQuiet(s.line, acc);
    var (l, fill) := ReadHeader(s.line, acc);
    var stream := m.Frame() + rest;
    if fill.Full? {
      FrontTaken(fill.bytes, l.rx, m.Head().Bytes(), m.payload, rest);
      MessageRoundTrip(m);
      PayloadTaken(s.(line := l), m.Head(), m.payload, Classify(m.Head()), rest);
      if AfterStart(s, acc).1.OutOfSchedule? {
        SuffixOfSuffix(AfterStart(s, acc).0.line, m.payload + rest, m.Head().Bytes());
        assert stream == m.Head().Bytes() + (m.payload + rest);
      }
    }
  }

  lemma {:induction false} SuffixOfSuffix(l: LineState, stream: seq<Byte>, front: seq<Byte>)
    requires Rest(l, stream)
    ensures Rest(l, front + stream)
  {
  }

  lemma {:induction false} PayloadTaken(
    s: Driver, header: Header, payload: seq<Byte>, kind: Kind, rest: seq<Byte>)
    requires s.Valid() && s.w == s.r && Quiet(s.line) && |payload| <= MAX_PAYLOAD_SIZE
    requires s.line.rx == payload + rest
    requires kind == Event(|payload|) || kind == Response(|payload|)
    ensures var (s', outcome) := Dispatch(s, header, kind);
            && Quiet(s'.line) && s'.booted == s.booted
            && if outcome.OutOfSchedule? then |rest| < |s'.line.rx| && Rest(s'.line, payload + rest)
               else Stored(s, s', outcome, header, payload, rest)
  {
    ReceiveExact(s.line, payload, rest);
  }

  lemma {:induction false} ReceiveExact(l: LineState, payload: seq<Byte>, rest: seq<Byte>)
    requires Quiet(l) && l.rx == payload + rest
    ensures var (l', fill) := Receive(l, |payload|, []);
            && Quiet(l') && !fill.Lost?
            && (fill.Full? ==> fill.bytes == payload && l'.rx == rest)
            && (fill.Stuck? ==> |rest| < |l'.rx| && Rest(l', payload + rest))
  {
    ReceiveQuiet(l, |payload|, []);
    var (l', fill) := Receive(l, |payload|, []);
    assert [] + l.rx == l.rx;
    if fill.Full? {
      SplitAt(fill.bytes, l'.rx, payload, rest);
    } else {
      SuffixLeft(fill.bytes, l', payload + rest);
    }
  }

  lemma {:induction false} SuffixLeft(taken: seq<Byte>, l: LineState, stream: seq<Byte>)
    requires taken + l.rx == stream
    ensures Rest(l, stream)
  {
  }

  ghost predicate Waiting(s: Driver) {
    s.Valid() && s.w == s.r && Quiet(s.line)
  }

  /** What gecko_get_event makes of the frame at the head of the line. */
  ghost predicate Delivered(s: Driver, got: (Driver, bool, Packet), m: Message, rest: seq<Byte>, stream: seq<Byte>)
    requires s.Valid()
  {
    var (s', some, p) := got;
    && Quiet(s'.line)
    && if some then
         && Waiting(s') && s'.line.rx == rest && s'.booted == s.booted && Carries(p, m)
         && Returns(s'.log) == Returns(s.log) + [p]
       else
         |rest| < |s'.line.rx| && Rest(s'.line, stream) && Returns(s'.log) == Returns(s.log)
  }

  /** What is in the one occupied slot comes out next. */
  lemma {:induction false} EventReturned(s: Driver, s': Driver, header: Header, payload: seq<Byte>)
    requires s.Valid() && s.w == s.r && s'.Valid() && s'.r == s.r && s'.w == Advance(s.r)
    requires s'.log == s.log + [Accepted(header, payload)]
    ensures var p := s'.slots[s.r];
            && GetEvent(s') == (Return(s'.(r := Advance(s.r)), p), true, p)
            && Returns(GetEvent(s').0.log) == Returns(s.log) + [p]
  {
    var p := s'.slots[s.r];
    ReturnsOfOneMore(s.log, Accepted(header, payload));
    ReturnsOfOneMore(s'.log, Returned(p));
  }

  lemma {:induction false} AfterWait(
    s: Driver, waited: (Driver, Outcome), m: Message, rest: seq<Byte>, stream: seq<Byte>)
    requires Waiting(s) && s.line.script != [] && Turn(s) == waited
    requires var (s', outcome) := waited;
             && Quiet(s'.line) && s'.booted == s.booted
             && if outcome.OutOfSchedule? then
                  |rest| < |s'.line.rx| && Rest(s'.line, stream)
                  && Returns(s'.log) == Returns(s.log)
                else Stored(s, s', outcome, m.Head(), m.payload, rest)
    ensures Delivered(s, GetEvent(s), m, rest, stream)
  {
    AfterTurn(s);
    var (s', outcome) := waited;
    match outcome {
      case GotResponse => ReturnsOfOneMore(s.log, Returned(s'.response));
      case Nothing => EventReturned(s, s', m.Head(), m.payload);
      case OutOfSchedule =>
    }
  }

  lemma {:induction false} LogDuringWait(s: Driver, acc: seq<Byte>, header: Header)
    requires s.Valid() && s.w == s.r && Quiet(s.line) && |acc| < HEADER_LEN
    requires var fill := ReadHeader(s.line, acc).1; fill.Full? ==> HeaderFrom(fill.bytes) == header
    ensures AfterStart(s, acc).1.OutOfSchedule? ==> Returns(AfterStart(s, acc).0.log) == Returns(s.log)
  {
    var (l, fill) := ReadHeader(s.line, acc);
    if fill.Full? {
      DispatchLog(s.(line := l), header, Classify(header));
    }
  }

  lemma {:induction false} DispatchLog(s: Driver, header: Header, kind: Kind)
    requires s.Valid() && s.w == s.r
    requires !kind.Refused? ==> kind.len <= PACKET_MEMORY
    ensures Dispatch(s, header, kind).1.OutOfSchedule? ==> Returns(Dispatch(s, header, kind).0.log) == Returns(s.log)
  {
    if kind.Event? {
      ReturnsOfOneMore(s.log, Accepted(header, Receive(s.line, kind.len, []).1.bytes));
    }
  }

  /** A booted receiver takes the next frame off the line. */
  lemma {:induction false} BootedTakesFrame(s: Driver, m: Message, rest: seq<Byte>)
    requires Waiting(s) && s.booted && m.Valid()
    requires s.line.rx == m.Frame() + rest
    ensures Delivered(s, GetEvent(s), m, rest, m.Frame() + rest)
  {
    if s.line.script != [] {
      assert [] + s.line.rx == m.Frame() + rest;
      WholeFrame(s, [], m, rest);
      HeaderOnLine(s, [], m, rest);
      LogDuringWait(s, [], m.Head());
      assert s == s.(line := s.line.(resetWanted := false));
      AfterWait(s, AfterStart(s, []), m, rest, m.Frame() + rest);
    }
  }

  lemma {:induction false} HeaderOnLine(s: Driver, acc: seq<Byte>, m: Message, rest: seq<Byte>)
    requires Quiet(s.line) && |acc| < HEADER_LEN && m.Valid()
    requires acc + s.line.rx == m.Frame() + rest
    ensures var fill := ReadHeader(s.line, acc).1; fill.Full? ==> HeaderFrom(fill.bytes) == m.Head()
  {
    ReadHeaderQuiet(s.line, acc);
    var (l, fill) := ReadHeader(s.line, acc);
    if fill.Full? {
      FrontTaken(fill.bytes, l.rx, m.Head().Bytes(), m.payload, rest);
      MessageRoundTrip(m);
    }
  }

  lemma {:induction false} EncodeSplit(messages: seq<Message>)
    requires messages != []
    ensures Encode(messages) == messages[0].Frame() + Encode(messages[1..])
    ensures |Encode(messages)| > |Encode(messages[1..])|
  {
  }

  /** The line holds the stream of these messages, down to some point inside the first frame. */
  ghost predicate Inside(rx: seq<Byte>, messages: seq<Message>) {
    if messages == [] then rx == []
    else
      && |Encode(messages[1..])| < |rx| <= |Encode(messages)|
      && rx == Encode(messages)[|Encode(messages)| - |rx|..]
  }

  /** How far a run got: the first messages came out one by one, and the line holds the others. */
  ghost predicate Progress(out: seq<Packet>, rx: seq<Byte>, messages: seq<Message>)
    decreases |out|
  {
    if out == [] then Inside(rx, messages)
    else messages != [] && Carries(out[0], messages[0]) && Progress(out[1..], rx, messages[1..])
  }

  lemma {:induction false} CarriedInOrder(out: seq<Packet>, rx: seq<Byte>, messages: seq<Message>)
    requires Progress(out, rx, messages)
    ensures |out| <= |messages| && forall i :: 0 <= i < |out| ==> Carries(out[i], messages[i])
    decreases |out|
  {
    if out != [] {
      CarriedInOrder(out[1..], rx, messages[1..]);
      forall i | 0 <= i < |out| ensures Carries(out[i], messages[i]) {
        if i > 0 {
          assert Carries(out[1..][i - 1], messages[1..][i - 1]);
        }
      }
    }
  }

  lemma {:induction false} LeftOver(out: seq<Packet>, rx: seq<Byte>, messages: seq<Message>)
    requires Progress(out, rx, messages)
    ensures |out| <= |messages| && Inside(rx, messages[|out|..])
    decreases |out|
  {
    if out == [] {
      assert messages[0..] == messages;
    } else {
      LeftOver(out[1..], rx, messages[1..]);
      assert messages[1..][|out| - 1..] == messages[|out|..];
    }
  }

  /** A run that had already returned some packets has ended with these messages, or some of them, after those. */
  ghost predicate RanTo(before: seq<Packet>, end: Driver, messages: seq<Message>) {
    var after := Returns(end.log);
    |before| <= |after| && after[..|before|] == before && Progress(after[|before|..], end.line.rx, messages)
  }

  /** One message came out, then the rest of the run. */
  lemma {:induction false} OneMore(before: seq<Packet>, p: Packet, end: Driver, messages: seq<Message>)
    requires messages != [] && Carries(p, messages[0])
    requires RanTo(before + [p], end, messages[1..])
    ensures RanTo(before, end, messages)
  {
    ThenTheRest(before, p, Returns(end.log), end.line.rx, messages);
  }

  lemma {:induction false} ThenTheRest(
    before: seq<Packet>, p: Packet, after: seq<Packet>, rx: seq<Byte>, messages: seq<Message>)
    requires messages != [] && Carries(p, messages[0])
    requires |before| < |after| && after[..|before| + 1] == before + [p]
    requires Progress(after[|before| + 1..], rx, messages[1..])
    ensures after[..|before|] == before
    ensures Progress(after[|before|..], rx, messages)
  {
    var n := |before|;
    assert after[..n] == after[..n + 1][..n];
    assert after[n] == after[..n + 1][n];
    assert after[n..][1..] == after[n + 1..];
  }

  /** The schedule ended inside the frame at the head of the line. */
  lemma {:induction false} InsideFirst(before: seq<Packet>, end: Driver, messages: seq<Message>)
    requires Returns(end.log) == before && Inside(end.line.rx, messages)
    ensures RanTo(before, end, messages)
  {
    assert before[..|before|] == before && before[|before|..] == [];
  }

  lemma {:induction false} HandledStillWaiting(s: Driver, p: Packet)
    requires Waiting(s)
    ensures Waiting(Handle(s, p)) && Handle(s, p).line == s.line
    ensures s.booted || p.header.Id() == SYSTEM_BOOT_ID ==> Handle(s, p).booted
    ensures Returns(Handle(s, p).log) == Returns(s.log)
  {
    if Handle(s, p).log != s.log {
      ReturnsOfOneMore(s.log, Handle(s, p).log[|s.log|]);
    }
  }

  lemma {:induction false} NothingOnLine(s: Driver)
    requires Waiting(s) && s.booted && s.line.rx == []
    ensures Drive(s).line.rx == [] && Drive(s).log == s.log
  {
    if s.line.script != [] {
      ReadHeaderEmpty(s.line);
      assert s == s.(line := s.line.(resetWanted := false));
      assert GetEvent(s) == (Turn(s).0, false, Turn(s).0.response);
    }
  }

  lemma {:induction false} ReadHeaderEmpty(l: LineState)
    requires Quiet(l) && l.rx == []
    ensures ReadHeader(l, []).1 == Stuck([]) && ReadHeader(l, []).0.rx == []
    decreases |l.script|
  {
    if l.script != [] {
      ReadHeaderEmpty(Read(l, HEADER_LEN).0);
    }
  }

  /** Every list of messages, every schedule of short and empty reads: a booted receiver returns a prefix of the
      list, message by message, and the bytes it has not read are exactly the rest of the stream. */
  lemma {:induction false} BootedRun(s: Driver, messages: seq<Message>)
    requires Waiting(s) && s.booted && AllValid(messages)
    requires s.line.rx == Encode(messages)
    ensures RanTo(Returns(s.log), Drive(s), messages)
    decreases |messages|
  {
    if messages == [] {
      NothingOnLine(s);
      InsideFirst(Returns(s.log), Drive(s), messages);
    } else {
      BootedTakesFrame(s, messages[0], Encode(messages[1..]));
      EncodeSplit(messages);
      var (s', some, p) := GetEvent(s);
      if some {
        HandledStillWaiting(s', p);
        BootedRun(Handle(s', p), messages[1..]);
        OneMore(Returns(s.log), p, Drive(s), messages);
      } else {
        InsideFirst(Returns(s.log), s', messages);
      }
    }
  }

  /** The framing round trip: whatever the schedule, the packets returned are the first messages sent, the line holds
      the stream of the others, and once the line has been read to its end exactly the sent messages came out. */
  lemma {:induction false} FramingRoundTrip(s: Driver, messages: seq<Message>)
    requires Waiting(s) && s.booted && s.log == [] && AllValid(messages)
    requires s.line.rx == Encode(messages)
    ensures var out := Returns(Drive(s).log);
            && |out| <= |messages|
            && (forall i :: 0 <= i < |out| ==> Carries(out[i], messages[i]))
            && Inside(Drive(s).line.rx, messages[|out|..])
            && (Drive(s).line.rx == [] <==> |out| == |messages|)
  {
    BootedRun(s, messages);
    FromTheStart(Drive(s), messages);
  }

  lemma {:induction false} FromTheStart(end: Driver, messages: seq<Message>)
    requires RanTo([], end, messages)
    ensures var out := Returns(end.log);
            && |out| <= |messages|
            && (forall i :: 0 <= i < |out| ==> Carries(out[i], messages[i]))
            && Inside(end.line.rx, messages[|out|..])
            && (end.line.rx == [] <==> |out| == |messages|)
  {
    var out := Returns(end.log);
    assert out[0..] == out;
    CarriedInOrder(out, end.line.rx, messages);
    LeftOver(out, end.line.rx, messages);
    assert messages[|out|..] == [] <==> |out| == |messages|;
  }

  /** Of a line that held rx, ending in a start byte and a tail, the search has left the tail, or it is still before
      the start byte. */
  ghost predicate ScannedTo(scan: (LineState, Scanned), tail: seq<Byte>, rx: seq<Byte>) {
    var (l, scanned) := scan;
    && Quiet(l) && !scanned.Interrupted?
    && (scanned.Found? ==> l.rx == tail)
    && (scanned.NotYet? ==> |tail| < |l.rx| && Rest(l, rx))
  }

  lemma {:induction false} ScannedFurther(scan: (LineState, Scanned), tail: seq<Byte>, rx: seq<Byte>, taken: seq<Byte>)
    requires ScannedTo(scan, tail, rx)
    ensures ScannedTo(scan, tail, taken + rx)
  {
    if Rest(scan.0, rx) {
      SuffixOfSuffix(scan.0, rx, taken);
    }
  }

  lemma {:induction false} ScanStep(l: LineState)
    requires Quiet(l) && l.script != []
    ensures var (l', got) := Read(l, 1);
            && Quiet(l') && got.Data? && |got.bytes| <= 1 && l.rx == got.bytes + l'.rx
            && Scan(l) == if got.bytes == [0xa0] then (l', Found) else Scan(l')
  {
    QuietRead(l, 1);
  }

  lemma {:induction false} ScanNoise(l: LineState, noise: seq<Byte>, tail: seq<Byte>)
    requires Quiet(l) && 0xa0 !in noise
    requires l.rx == noise + [0xa0] + tail
    ensures ScannedTo(Scan(l), tail, l.rx)
    decreases |l.script|
  {
    if l.script != [] {
      ScanStep(l);
      var (l', got) := Read(l, 1);
      if got.bytes == [] {
        assert l'.rx == l.rx;
        ScanNoise(l', noise, tail);
      } else {
        StepOverNoise(got.bytes, l'.rx, noise, tail);
        if noise != [] {
          ScanNoise(l', noise[1..], tail);
          ScannedFurther(Scan(l'), tail, l'.rx, got.bytes);
        }
      }
    }
  }

  lemma {:induction false} StepOverNoise(bytes: seq<Byte>, rest: seq<Byte>, noise: seq<Byte>, tail: seq<Byte>)
    requires |bytes| == 1 && bytes + rest == noise + [0xa0] + tail && 0xa0 !in noise
    ensures if noise == [] then bytes == [0xa0] && rest == tail
            else bytes != [0xa0] && 0xa0 !in noise[1..] && rest == noise[1..] + [0xa0] + tail
  {
    assert bytes == [bytes[0]];
    FirstByte(bytes[0], rest, noise, tail);
  }

  lemma {:induction false} FirstByte(b: Byte, rest: seq<Byte>, noise: seq<Byte>, tail: seq<Byte>)
    requires [b] + rest == noise + [0xa0] + tail && 0xa0 !in noise
    ensures if noise == [] then b == 0xa0 && rest == tail
            else b != 0xa0 && 0xa0 !in noise[1..] && rest == noise[1..] + [0xa0] + tail
  {
    var stream := [b] + rest;
    assert b == stream[0] && rest == stream[1..];
    if noise != [] {
      assert b == noise[0];
    }
  }

  lemma {:induction false} StartByteFirst(noise: seq<Byte>, frame: seq<Byte>, rest: seq<Byte>)
    requires frame != [] && frame[0] == 0xa0
    ensures [0xa0] + (frame + rest)[1..] == frame + rest
    ensures noise + (frame + rest) == noise + [0xa0] + (frame + rest)[1..]
  {
  }

  /** An unbooted receiver skips anything that holds no 0xa0 and takes the boot event that follows. */
  lemma {:induction false} UnbootedTakesBoot(s: Driver, noise: seq<Byte>, boot: Message, rest: seq<Byte>)
    requires Waiting(s) && !s.booted && boot.Valid() && boot.id == SYSTEM_BOOT_ID && |boot.payload| < 256
    requires 0xa0 !in noise
    requires s.line.rx == noise + (boot.Frame() + rest)
    ensures Delivered(s, GetEvent(s), boot, rest, noise + (boot.Frame() + rest))
  {
    if s.line.script != [] {
      var stream := noise + (boot.Frame() + rest);
      BootFrameStart(boot);
      var tail := (boot.Frame() + rest)[1..];
      StartByteFirst(noise, boot.Frame(), rest);
      ScanNoise(s.line, noise, tail);
      var (l, scanned) := Scan(s.line);
      assert s == s.(line := s.line.(resetWanted := false));
      if scanned.Found? {
        var s' := s.(line := l);
        WholeFrame(s', [0xa0], boot, rest);
        HeaderOnLine(s', [0xa0], boot, rest);
        LogDuringWait(s', [0xa0], boot.Head());
        if AfterStart(s', [0xa0]).1.OutOfSchedule? {
          SuffixOfSuffix(AfterStart(s', [0xa0]).0.line, boot.Frame() + rest, noise);
        }
        AfterWait(s, AfterStart(s', [0xa0]), boot, rest, stream);
      }
    }
  }

  /** A run has returned the first of these messages, in order, after the packets it had returned before; all of them
      exactly if the line is used up; and it is booted if there was any. */
  ghost predicate CameOut(before: seq<Packet>, end: Driver, sent: seq<Message>) {
    var all := Returns(end.log);
    && |before| <= |all| && all[..|before|] == before
    && var out := all[|before|..];
       && |out| <= |sent|
       && (forall i :: 0 <= i < |out| ==> Carries(out[i], sent[i]))
       && (end.line.rx == [] <==> |out| == |sent|)
       && (out != [] ==> end.booted)
  }

  /** Start-up, at the beginning or after a reset, on every schedule of short and empty reads: noise without 0xa0 is
      skipped, the boot event opens the gate, and from then on exactly the sent messages come out in order. */
  lemma {:induction false} StartUpRoundTrip(s: Driver, noise: seq<Byte>, boot: Message, messages: seq<Message>)
    requires Waiting(s) && !s.booted
    requires boot.Valid() && boot.id == SYSTEM_BOOT_ID && |boot.payload| < 256 && AllValid(messages)
    requires 0xa0 !in noise
    requires s.line.rx == noise + Encode([boot] + messages)
    ensures CameOut(Returns(s.log), Drive(s), [boot] + messages)
  {
    var sent := [boot] + messages;
    assert sent[1..] == messages;
    EncodeSplit(sent);
    UnbootedTakesBoot(s, noise, boot, Encode(messages));
    var (s', some, p) := GetEvent(s);
    if some {
      BootThenRun(Returns(s.log), s', p, boot, messages);
      RanOut(Returns(s.log), Drive(s), sent);
    } else {
      var before := Returns(s.log);
      assert before[..|before|] == before && before[|before|..] == [];
    }
  }

  lemma {:induction false} RanOut(before: seq<Packet>, end: Driver, sent: seq<Message>)
    requires RanTo(before, end, sent) && end.booted
    ensures CameOut(before, end, sent)
  {
    var out := Returns(end.log)[|before|..];
    CarriedInOrder(out, end.line.rx, sent);
    LeftOver(out, end.line.rx, sent);
    assert sent[|out|..] == [] <==> |out| == |sent|;
  }

  /** The reset branch, then the rest of the turn on what it leaves. */
  lemma {:induction false} ResetThenDrive(s: Driver)
    requires s.Valid() && s.w == s.r && s.line.script != [] && (s.line.resetWanted || s.line.script[0].early)
    requires var after := ResetBranch(s.(line := s.line.(resetWanted := true))); after.1 && Quiet(after.0.line)
    ensures var after := ResetBranch(s.(line := s.line.(resetWanted := true))).0;
            Drive(s) == Drive(after) && Returns(after.log) == Returns(s.log)
  {
    var after := ResetBranch(s.(line := s.line.(resetWanted := true))).0;
    ReturnsOfOneMore(s.log, WasReset);
    assert Turn(s) == WaitMessage(after);
    AfterTurn(s);
    if after.line.script == [] {
      assert WaitMessage(after) == (after, OutOfSchedule);
    } else {
      assert after == after.(line := after.line.(resetWanted := false));
      assert Turn(after) == WaitMessage(after);
      AfterTurn(after);
    }
  }

  /** A reset in the middle of a run: whatever the receiver had returned, and whatever the cache clean swallowed, if a
      boot event and messages follow then these come out next. */
  lemma {:induction false} ResetRoundTrip(s: Driver, noise: seq<Byte>, boot: Message, messages: seq<Message>)
    requires s.Valid() && s.w == s.r && s.line.script != [] && (s.line.resetWanted || s.line.script[0].early)
    requires boot.Valid() && boot.id == SYSTEM_BOOT_ID && |boot.payload| < 256 && AllValid(messages)
    requires 0xa0 !in noise
    requires var (after, done) := ResetBranch(s.(line := s.line.(resetWanted := true)));
             done && Quiet(after.line) && after.line.rx == noise + Encode([boot] + messages)
    ensures CameOut(Returns(s.log), Drive(s), [boot] + messages)
  {
    ResetThenDrive(s);
    StartUpRoundTrip(ResetBranch(s.(line := s.line.(resetWanted := true))).0, noise, boot, messages);
  }

  /** The driver thread before its first read. */
  function PowerOn(rx: seq<Byte>, script: seq<Tick>): (s: Driver)
    ensures s.Valid()
  {
    var blank := Packet(Header(0, 0, 0, 0), seq(PACKET_MEMORY, _ => 0));
    Driver(LineState(rx, script, false), seq(QUEUE_LEN, _ => blank), 0, 0, blank, false, [])
  }

  /** From power on, for every schedule of short and empty reads, any noise without a start byte, any boot payload and
      any messages: what the thread returns is a prefix of what was sent, and all of it once the line is used up. */
  lemma {:induction false} PowerOnRoundTrip(
    script: seq<Tick>, noise: seq<Byte>, payload: seq<Byte>, messages: seq<Message>)
    requires Quiet(LineState([], script, false))
    requires 0xa0 !in noise && |payload| < 256 && AllValid(messages)
    ensures var sent := [Message(SYSTEM_BOOT_ID, payload)] + messages;
            var end := Drive(PowerOn(noise + Encode(sent), script));
            var out := Returns(end.log);
            && |out| <= |sent|
            && (forall i :: 0 <= i < |out| ==> Carries(out[i], sent[i]))
            && (end.line.rx == [] <==> |out| == |sent|)
            && (out != [] ==> end.booted)
  {
    var boot := Message(SYSTEM_BOOT_ID, payload);
    BootMessageIsValid(payload);
    var start := PowerOn(noise + Encode([boot] + messages), script);
    StartUpRoundTrip(start, noise, boot, messages);
    assert Returns(start.log) == [];
    assert Returns(Drive(start).log)[0..] == Returns(Drive(start).log);
  }

  lemma {:induction false} BootThenRun(
    before: seq<Packet>, s: Driver, p: Packet, boot: Message, messages: seq<Message>)
    requires Waiting(s) && Returns(s.log) == before + [p] && s.line.rx == Encode(messages)
    requires Carries(p, boot) && boot.Valid() && boot.id == SYSTEM_BOOT_ID && AllValid(messages)
    ensures RanTo(before, Drive(Handle(s, p)), [boot] + messages)
    ensures Drive(Handle(s, p)).booted
  {
    MessageRoundTrip(boot);
    HandledStillWaiting(s, p);
    BootedRun(Handle(s, p), messages);
    StaysBooted(Handle(s, p));
    assert ([boot] + messages)[1..] == messages;
    OneMore(before, p, Drive(Handle(s, p)), [boot] + messages);
  }

  lemma {:induction false} GetEventKeepsBoot(s: Driver)
    requires s.Valid() && s.booted && Quiet(s.line)
    ensures GetEvent(s).0.booted && Quiet(GetEvent(s).0.line)
    decreases |s.line.script|
  {
    if s.w == s.r && s.line.script != [] {
      ReadHeaderQuiet(s.line, []);
      var (l, fill) := ReadHeader(s.line, []);
      if fill.Full? {
        DispatchKeepsBoot(s.(line := l), HeaderFrom(fill.bytes), Classify(HeaderFrom(fill.bytes)));
      }
      assert s == s.(line := s.line.(resetWanted := false));
      if Turn(s).1.Nothing? {
        GetEventKeepsBoot(Turn(s).0);
      }
    }
  }

  lemma {:induction false} DispatchKeepsBoot(s: Driver, header: Header, kind: Kind)
    requires s.Valid() && s.booted && Quiet(s.line)
    requires !kind.Refused? ==> kind.len <= PACKET_MEMORY
    ensures Dispatch(s, header, kind).0.booted && Quiet(Dispatch(s, header, kind).0.line)
  {
    if !kind.Refused? {
      ReceiveQuiet(s.line, kind.len, []);
    }
  }

  lemma {:induction false} StaysBooted(s: Driver)
    requires s.Valid() && s.booted && Quiet(s.line)
    ensures Drive(s).booted
    decreases |s.line.script|, s.Queued()
  {
    GetEventKeepsBoot(s);
    var (s', some, p) := GetEvent(s);
    if some {
      StaysBooted(Handle(s', p));
    }
  }
}
