/** The receiver makes progress: on a line where every read brings at least one byte while there is one, as many
    reads as the stream has bytes deliver every message. */
module Throughput {
  import opened Bgapi
  import opened SerialLine
  import opened Receiver
  import opened Framing

  ghost predicate Eager(l: LineState) {
    Quiet(l) && forall i :: 0 <= i < |l.script| ==> l.script[i].got.n >= 1
  }

  /** Every read used up at least one byte, unless there were none left. */
  ghost predicate Used(l: LineState, l': LineState) {
    && Eager(l')
    && |l'.rx| <= |l.rx|
    && (l'.rx == [] || |l'.rx| + (|l.script| - |l'.script|) <= |l.rx|)
  }

  lemma {:induction false} UsedByReceive(l: LineState, want: nat, acc: seq<Byte>)
    requires Eager(l)
    ensures Used(l, Receive(l, want, acc).0)
    decreases |l.script|
  {
    if want != 0 && l.script != [] {
      var (l', got) := Read(l, want);
      UsedByReceive(l', want - |got.bytes|, acc + got.bytes);
    }
  }

  lemma {:induction false} UsedByReadHeader(l: LineState, acc: seq<Byte>)
    requires Eager(l) && |acc| <= HEADER_LEN
    ensures Used(l, ReadHeader(l, acc).0)
    decreases |l.script|
  {
    if |acc| != HEADER_LEN && l.script != [] {
      var (l', got) := Read(l, HEADER_LEN - |acc|);
      UsedByReadHeader(l', acc + got.bytes);
    }
  }

  lemma {:induction false} UsedByScan(l: LineState)
    requires Eager(l)
    ensures Used(l, Scan(l).0)
    decreases |l.script|
  {
    if l.script != [] {
      var (l', got) := Read(l, 1);
      if got != Data([0xa0]) {
        UsedByScan(l');
      }
    }
  }

  lemma {:induction false} UsedByDispatch(s: Driver, header: Header, kind: Kind)
    requires s.Valid() && Eager(s.line)
    requires !kind.Refused? ==> kind.len <= PACKET_MEMORY
    ensures Used(s.line, Dispatch(s, header, kind).0.line)
  {
    if !kind.Refused? {
      UsedByReceive(s.line, kind.len, []);
    }
  }

  lemma {:induction false} UsedByAfterStart(s: Driver, acc: seq<Byte>)
    requires s.Valid() && |acc| < HEADER_LEN && Eager(s.line)
    ensures Used(s.line, AfterStart(s, acc).0.line)
  {
    UsedByReadHeader(s.line, acc);
    var (l, fill) := ReadHeader(s.line, acc);
    if fill.Full? {
      UsedByDispatch(s.(line := l), HeaderFrom(fill.bytes), Classify(HeaderFrom(fill.bytes)));
    }
  }

  lemma {:induction false} UsedByTurn(s: Driver)
    requires s.Valid() && Eager(s.line) && s.line.script != []
    ensures Used(s.line, Turn(s).0.line)
  {
    assert s == s.(line := s.line.(resetWanted := false));
    if s.booted {
      UsedByAfterStart(s, []);
    } else {
      UsedByScan(s.line);
      var (l, scanned) := Scan(s.line);
      if scanned.Found? {
        UsedByAfterStart(s.(line := l), [0xa0]);
      }
    }
  }

  lemma {:induction false} UsedByGetEvent(s: Driver)
    requires s.Valid() && Eager(s.line)
    ensures Used(s.line, GetEvent(s).0.line)
    decreases |s.line.script|
  {
    if s.w == s.r && s.line.script != [] {
      UsedByTurn(s);
      if Turn(s).1.Nothing? {
        UsedByGetEvent(Turn(s).0);
      }
    }
  }

  lemma {:induction false} UsedByDrive(s: Driver)
    requires s.Valid() && Eager(s.line)
    ensures Used(s.line, Drive(s).line)
    decreases |s.line.script|, s.Queued()
  {
    UsedByGetEvent(s);
    var (s', some, p) := GetEvent(s);
    if some {
      UsedByDrive(Handle(s', p));
    }
  }

  lemma {:induction false} EverythingArrives(s: Driver, messages: seq<Message>)
    requires Waiting(s) && s.booted && s.log == [] && AllValid(messages)
    requires s.line.rx == Encode(messages)
    requires Eager(s.line) && |s.line.script| >= |s.line.rx|
    ensures Drive(s).line.rx == []
    ensures var out := Returns(Drive(s).log);
            |out| == |messages| && forall i :: 0 <= i < |out| ==> Carries(out[i], messages[i])
  {
    FramingRoundTrip(s, messages);
    UsedByDrive(s);
  }

  /** From the first read of the program: the noise is skipped, and the boot event and every message behind it are
      returned. */
  lemma {:induction false} EverythingArrivesFromPowerOn(
    script: seq<Tick>, noise: seq<Byte>, payload: seq<Byte>, messages: seq<Message>)
    requires 0xa0 !in noise && |payload| < 256 && AllValid(messages)
    requires var sent := [Message(SYSTEM_BOOT_ID, payload)] + messages;
             var line := noise + Encode(sent);
             Eager(LineState(line, script, false)) && |script| >= |line|
    ensures var sent := [Message(SYSTEM_BOOT_ID, payload)] + messages;
            var end := Drive(PowerOn(noise + Encode(sent), script));
            var out := Returns(end.log);
            && end.line.rx == [] && end.booted
            && |out| == |sent| && forall i :: 0 <= i < |out| ==> Carries(out[i], sent[i])
  {
    PowerOnRoundTrip(script, noise, payload, messages);
    UsedByDrive(PowerOn(noise + Encode([Message(SYSTEM_BOOT_ID, payload)] + messages), script));
  }
}
