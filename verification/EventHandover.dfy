/** What becomes of the packets that gecko_get_event returns: which are put on the watcher queue, which are kept for the
    API thread, and which are dropped. */
module EventHandover {
  import opened Bgapi
  import opened SerialLine
  import opened Receiver
  import opened DriverInvariants
  import opened Framing

  /** The message ids that the event handler puts on the watcher queue, as the header file spells them: system boot,
      connection closed, characteristic value, server attribute value, server characteristic status, legacy and extended
      advertisement report, sync opened, sync data, sync closed, connection parameters, connection opened. */
  predicate ForWatcher(id: nat) {
    id in {0x000100a0, 0x010600a0, 0x040900a0, 0x000a00a0, 0x030a00a0, 0x000500a0, 0x020500a0, 0x004200a0, 0x024200a0,
           0x014200a0, 0x020600a0, 0x000600a0}
  }

  /** GATT service and GATT characteristic, kept for the API thread. */
  predicate ForApi(id: nat) {
    id in {0x010900a0, 0x020900a0}
  }

  lemma {:induction false} WordIs(id: MsgId, first: Byte, classId: Byte, commandId: Byte)
    ensures id.Word() == first + 0x10000 * classId + 0x1000000 * commandId <==> id == MsgId(first, classId, commandId)
  {
  }

  lemma {:induction false} HandlerIds(id: MsgId)
    ensures id == SYSTEM_BOOT_ID <==> id.Word() == 0x000100a0
    ensures id in FORWARDED_IDS <==> ForWatcher(id.Word())
    ensures id in KEPT_IDS <==> ForApi(id.Word())
  {
    WordIs(id, 0xa0, 0x01, 0x00);
    WordIs(id, 0xa0, 0x06, 0x01);
    WordIs(id, 0xa0, 0x09, 0x04);
    WordIs(id, 0xa0, 0x0a, 0x00);
    WordIs(id, 0xa0, 0x0a, 0x03);
    WordIs(id, 0xa0, 0x05, 0x00);
    WordIs(id, 0xa0, 0x05, 0x02);
    WordIs(id, 0xa0, 0x42, 0x00);
    WordIs(id, 0xa0, 0x42, 0x02);
    WordIs(id, 0xa0, 0x42, 0x01);
    WordIs(id, 0xa0, 0x06, 0x02);
    WordIs(id, 0xa0, 0x06, 0x00);
    WordIs(id, 0xa0, 0x09, 0x01);
    WordIs(id, 0xa0, 0x09, 0x02);
  }

  /** The packet returned at i is submitted at once if and only if the module had booted, or this is its boot, and the
      id is one for the watcher; it is kept if and only if the module had booted and the id is one for the API. */
  ghost predicate HandledAt(log: seq<Mark>, i: nat)
    requires i < |log| && log[i].Returned?
  {
    var p, id := log[i].packet, log[i].packet.header.Id().Word();
    var gate := BootedBy(log[..i]) || id == 0x000100a0;
    && (i + 1 < |log| && log[i + 1] == Submitted(p) <==> gate && ForWatcher(id))
    && (i + 1 < |log| && log[i + 1] == Kept(p) <==> gate && ForApi(id))
  }

  ghost predicate AllHandled(log: seq<Mark>) {
    forall i :: 0 <= i < |log| && log[i].Returned? ==> HandledAt(log, i)
  }

  /** A mark that is neither a return nor a hand-over. */
  predicate Silent(mark: Mark) {
    mark.WasReset? || mark.Accepted? || mark.Dropped?
  }

  lemma {:induction false} SilentAfter(log: seq<Mark>, mark: Mark)
    requires AllHandled(log) && Silent(mark)
    ensures AllHandled(log + [mark])
  {
    var after := log + [mark];
    forall i | 0 <= i < |after| && after[i].Returned? ensures HandledAt(after, i) {
      assert after[..i] == log[..i];
      assert HandledAt(log, i);
    }
  }

  /** A packet was just returned, and everything before it has been handled. */
  ghost predicate JustReturned(log: seq<Mark>, p: Packet) {
    log != [] && log[|log| - 1] == Returned(p) && AllHandled(log[..|log| - 1])
  }

  lemma {:induction false} HandledNext(log: seq<Mark>, p: Packet, after: seq<Mark>)
    requires AllHandled(log)
    requires var id := p.header.Id().Word();
             var gate := BootedBy(log) || id == 0x000100a0;
             after == log + [Returned(p)] + if gate && ForWatcher(id) then [Submitted(p)]
                                            else if gate && ForApi(id) then [Kept(p)] else []
    ensures AllHandled(after)
  {
    forall i | 0 <= i < |after| && after[i].Returned? ensures HandledAt(after, i) {
      if i < |log| {
        assert after[..i] == log[..i];
        assert HandledAt(log, i);
      } else {
        assert after[..i] == log;
      }
    }
  }

  lemma {:induction false} HandleHandles(s: Driver, p: Packet)
    requires s.Valid() && Guarded(s) && JustReturned(s.log, p)
    ensures AllHandled(Handle(s, p).log)
  {
    var front := s.log[..|s.log| - 1];
    assert s.log == front + [Returned(p)];
    BootedByStep(front, Returned(p));
    HandlerIds(p.header.Id());
    HandledNext(front, p, Handle(s, p).log);
  }

  lemma {:induction false} DispatchHandled(s: Driver, header: Header, kind: Kind)
    requires s.Valid() && AllHandled(s.log)
    requires !kind.Refused? ==> kind.len <= PACKET_MEMORY
    ensures AllHandled(Dispatch(s, header, kind).0.log)
  {
    var s' := Dispatch(s, header, kind).0;
    if s'.log != s.log {
      SilentAfter(s.log, s'.log[|s.log|]);
    }
  }

  lemma {:induction false} WaitHandled(s: Driver)
    requires s.Valid() && AllHandled(s.log)
    ensures AllHandled(WaitMessage(s).0.log)
  {
    var start := if s.booted then s.line else Scan(s.line).0;
    var (l, fill) := ReadHeader(start, if s.booted then [] else [0xa0]);
    if fill.Full? {
      DispatchHandled(s.(line := l), HeaderFrom(fill.bytes), Classify(HeaderFrom(fill.bytes)));
    }
  }

  lemma {:induction false} TurnHandled(s: Driver)
    requires s.Valid() && AllHandled(s.log) && s.line.script != []
    ensures AllHandled(Turn(s).0.log)
  {
    var wanted := s.line.resetWanted || s.line.script[0].early;
    var s' := s.(line := s.line.(resetWanted := wanted));
    if wanted {
      var (s'', done) := ResetBranch(s');
      if done {
        SilentAfter(s.log, WasReset);
        WaitHandled(s'');
      }
    } else {
      WaitHandled(s');
    }
  }

  lemma {:induction false} ReturnIsLast(log: seq<Mark>, p: Packet)
    requires AllHandled(log)
    ensures JustReturned(log + [Returned(p)], p)
  {
    assert (log + [Returned(p)])[..|log|] == log;
  }

  lemma {:induction false} GetEventHandled(s: Driver)
    requires s.Valid() && AllHandled(s.log)
    ensures var (s', some, p) := GetEvent(s); if some then JustReturned(s'.log, p) else AllHandled(s'.log)
    decreases |s.line.script|
  {
    if s.w != s.r {
      ReturnIsLast(s.log, s.slots[s.r]);
    } else if s.line.script != [] {
      TurnHandled(s);
      AfterTurn(s);
      var (s', outcome) := Turn(s);
      if outcome.GotResponse? {
        ReturnIsLast(s'.log, s'.response);
      } else if outcome.Nothing? {
        GetEventHandled(s');
      }
    }
  }

  lemma {:induction false} DriveHandled(s: Driver)
    requires Settled(s) && Guarded(s) && AllHandled(s.log)
    ensures AllHandled(Drive(s).log)
    decreases |s.line.script|, s.Queued()
  {
    GetEventKeeps(s);
    GetEventHandled(s);
    var (s', some, p) := GetEvent(s);
    if some {
      HandleKeeps(s', p);
      HandleHandles(s', p);
      DriveHandled(Handle(s', p));
    }
  }

  /** Over every schedule of reads and reset requests: each packet returned is handed to the watcher at once, or kept
      for the API, or neither, exactly as its id and the boot gate say. */
  lemma {:induction false} HandedOnIff(s: Driver)
    requires DriverInvariants.Fresh(s)
    ensures AllHandled(Drive(s).log)
  {
    DriveHandled(s);
  }

  // From end to end.

  function Submits(log: seq<Mark>): seq<Packet> {
    if log == [] then []
    else
      var last := log[|log| - 1];
      Submits(log[..|log| - 1]) + if last.Submitted? then [last.packet] else []
  }

  function Keeps(log: seq<Mark>): seq<Packet> {
    if log == [] then []
    else
      var last := log[|log| - 1];
      Keeps(log[..|log| - 1]) + if last.Kept? then [last.packet] else []
  }

  lemma {:induction false} HandedAfter(log: seq<Mark>, mark: Mark)
    ensures Submits(log + [mark]) == Submits(log) + if mark.Submitted? then [mark.packet] else []
    ensures Keeps(log + [mark]) == Keeps(log) + if mark.Kept? then [mark.packet] else []
  {
    assert (log + [mark])[..|log|] == log;
  }

  /** Two histories with the same hand-overs. */
  ghost predicate SameHanded(log: seq<Mark>, after: seq<Mark>) {
    Submits(after) == Submits(log) && Keeps(after) == Keeps(log)
  }

  lemma {:induction false} NothingHanded(log: seq<Mark>, mark: Mark)
    requires !mark.Submitted? && !mark.Kept?
    ensures SameHanded(log, log + [mark])
  {
    HandedAfter(log, mark);
  }

  lemma {:induction false} DispatchHandsNothing(s: Driver, header: Header, kind: Kind)
    requires s.Valid()
    requires !kind.Refused? ==> kind.len <= PACKET_MEMORY
    ensures SameHanded(s.log, Dispatch(s, header, kind).0.log)
  {
    var s' := Dispatch(s, header, kind).0;
    if s'.log != s.log {
      NothingHanded(s.log, s'.log[|s.log|]);
    }
  }

  lemma {:induction false} WaitHandsNothing(s: Driver)
    requires s.Valid()
    ensures SameHanded(s.log, WaitMessage(s).0.log)
  {
    var start := if s.booted then s.line else Scan(s.line).0;
    var (l, fill) := ReadHeader(start, if s.booted then [] else [0xa0]);
    if fill.Full? {
      DispatchHandsNothing(s.(line := l), HeaderFrom(fill.bytes), Classify(HeaderFrom(fill.bytes)));
    }
  }

  lemma {:induction false} TurnHandsNothing(s: Driver)
    requires s.Valid() && s.line.script != []
    ensures SameHanded(s.log, Turn(s).0.log)
  {
    var wanted := s.line.resetWanted || s.line.script[0].early;
    var s' := s.(line := s.line.(resetWanted := wanted));
    if wanted {
      var (s'', done) := ResetBranch(s');
      if done {
        NothingHanded(s.log, WasReset);
        WaitHandsNothing(s'');
      }
    } else {
      WaitHandsNothing(s');
    }
  }

  lemma {:induction false} GetEventHandsNothing(s: Driver)
    requires s.Valid()
    ensures SameHanded(s.log, GetEvent(s).0.log)
    decreases |s.line.script|
  {
    if s.w != s.r {
      NothingHanded(s.log, Returned(s.slots[s.r]));
    } else if s.line.script != [] {
      TurnHandsNothing(s);
      AfterTurn(s);
      var (s', outcome) := Turn(s);
      if outcome.GotResponse? {
        NothingHanded(s'.log, Returned(s'.response));
      } else if outcome.Nothing? {
        GetEventHandsNothing(s');
      }
    }
  }

  /** The messages for the watcher, and those for the API. */
  function WatcherMessages(messages: seq<Message>): seq<Message> {
    if messages == [] then []
    else (if ForWatcher(messages[0].id.Word()) then [messages[0]] else []) + WatcherMessages(messages[1..])
  }

  function ApiMessages(messages: seq<Message>): seq<Message> {
    if messages == [] then []
    else (if ForApi(messages[0].id.Word()) then [messages[0]] else []) + ApiMessages(messages[1..])
  }

  /** The packets carry the messages, one each, in order. */
  ghost predicate CarryAll(packets: seq<Packet>, messages: seq<Message>) {
    |packets| == |messages| && forall i :: 0 <= i < |packets| ==> Carries(packets[i], messages[i])
  }

  /** What a run has submitted and kept beyond some packets, of the first n messages. */
  ghost predicate HandedOver(submitted: seq<Packet>, kept: seq<Packet>, end: seq<Mark>, messages: seq<Message>, n: nat)
    requires n <= |messages|
  {
    && submitted <= Submits(end) && kept <= Keeps(end)
    && CarryAll(Submits(end)[|submitted|..], WatcherMessages(messages[..n]))
    && CarryAll(Keeps(end)[|kept|..], ApiMessages(messages[..n]))
  }

  lemma {:induction false} NoneHandedOver(log: seq<Mark>, messages: seq<Message>)
    ensures HandedOver(Submits(log), Keeps(log), log, messages, 0)
  {
    assert messages[..0] == [];
  }

  lemma {:induction false} CarriesFirst(
    before: seq<Packet>, p: seq<Packet>, after: seq<Packet>, m: seq<Message>, rest: seq<Message>)
    requires before + p <= after && CarryAll(p, m) && CarryAll(after[|before + p|..], rest)
    ensures before <= after && CarryAll(after[|before|..], m + rest)
  {
    var tail := after[|before|..];
    assert tail == p + after[|before + p|..] by {
      assert after == (before + p) + after[|before + p|..];
    }
  }

  /** The first message is handled, and then the others. */
  lemma {:induction false} FirstHandedOver(
    log: seq<Mark>, handled: seq<Mark>, p: Packet, end: seq<Mark>, messages: seq<Message>, n: nat)
    requires messages != [] && messages[0].Valid() && Carries(p, messages[0])
    requires 0 < n <= |messages|
    requires Submits(handled) == Submits(log) + if ForWatcher(messages[0].id.Word()) then [p] else []
    requires Keeps(handled) == Keeps(log) + if ForApi(messages[0].id.Word()) then [p] else []
    requires HandedOver(Submits(handled), Keeps(handled), end, messages[1..], n - 1)
    ensures HandedOver(Submits(log), Keeps(log), end, messages, n)
  {
    assert messages[..n][0] == messages[0] && messages[..n][1..] == messages[1..][..n - 1];
    var forWatcher, forApi := ForWatcher(messages[0].id.Word()), ForApi(messages[0].id.Word());
    CarriesFirst(Submits(log), if forWatcher then [p] else [], Submits(end),
                 if forWatcher then [messages[0]] else [], WatcherMessages(messages[1..][..n - 1]));
    CarriesFirst(Keeps(log), if forApi then [p] else [], Keeps(end),
                 if forApi then [messages[0]] else [], ApiMessages(messages[1..][..n - 1]));
  }

  /** What the handler does with a packet once the module has booted, or with its boot. */
  lemma {:induction false} HandleHandsOver(s: Driver, p: Packet, m: Message)
    requires s.Valid() && Carries(p, m) && m.Valid() && (s.booted || m.id == SYSTEM_BOOT_ID)
    ensures Submits(Handle(s, p).log) == Submits(s.log) + if ForWatcher(m.id.Word()) then [p] else []
    ensures Keeps(Handle(s, p).log) == Keeps(s.log) + if ForApi(m.id.Word()) then [p] else []
    ensures Handle(s, p).booted
  {
    MessageRoundTrip(m);
    HandlerIds(m.id);
    if Handle(s, p).log != s.log {
      HandedAfter(s.log, Handle(s, p).log[|s.log|]);
    }
  }

  lemma {:induction false} NoEventOnLine(s: Driver)
    requires Waiting(s) && s.booted && s.line.rx == []
    ensures Drive(s).log == s.log
  {
    NothingOnLine(s);
  }

  /** How many packets a run returns beyond those returned before. */
  function NewReturns(log: seq<Mark>, end: seq<Mark>): int {
    |Returns(end)| - |Returns(log)|
  }

  /** A booted run hands over exactly the messages it returns whose ids are for the watcher or the API, in order. */
  lemma {:induction false} BootedHandsOver(s: Driver, messages: seq<Message>)
    requires Waiting(s) && s.booted && AllValid(messages)
    requires s.line.rx == Encode(messages)
    ensures 0 <= NewReturns(s.log, Drive(s).log) <= |messages|
    ensures HandedOver(Submits(s.log), Keeps(s.log), Drive(s).log, messages, NewReturns(s.log, Drive(s).log))
    decreases |messages|
  {
    if messages == [] {
      NoEventOnLine(s);
      NoneHandedOver(s.log, messages);
    } else {
      BootedTakesFrame(s, messages[0], Encode(messages[1..]));
      EncodeSplit(messages);
      GetEventHandsNothing(s);
      var (s', some, p) := GetEvent(s);
      if some {
        OneHandedOver(s, s', p, messages);
      } else {
        NoneHandedOver(s.log, messages);
      }
    }
  }

  lemma {:induction false} OneHandedOver(s: Driver, s': Driver, p: Packet, messages: seq<Message>)
    requires s.Valid() && GetEvent(s) == (s', true, p) && Waiting(s') && AllValid(messages) && messages != []
    requires Carries(p, messages[0]) && (s'.booted || messages[0].id == SYSTEM_BOOT_ID)
    requires SameHanded(s.log, s'.log) && Returns(s'.log) == Returns(s.log) + [p]
    requires s'.line.rx == Encode(messages[1..])
    ensures 0 <= NewReturns(s.log, Drive(s).log) <= |messages|
    ensures HandedOver(Submits(s.log), Keeps(s.log), Drive(s).log, messages, NewReturns(s.log, Drive(s).log))
    decreases |messages|, 0
  {
    HandledStillWaiting(s', p);
    HandleHandsOver(s', p, messages[0]);
    var handled := Handle(s', p);
    BootedHandsOver(handled, messages[1..]);
    FirstHandedOver(s.log, handled.log, p, Drive(s).log, messages, NewReturns(s.log, Drive(s).log));
  }

  /** Start-up, at the beginning or after a reset: of the boot event and the messages behind it that the run returns,
      exactly those for the watcher are submitted and exactly those for the API are kept, in the order sent. */
  lemma {:induction false} StartUpHandsOver(s: Driver, noise: seq<Byte>, sent: seq<Message>)
    requires Waiting(s) && !s.booted
    requires sent != [] && AllValid(sent) && sent[0].id == SYSTEM_BOOT_ID && |sent[0].payload| < 256
    requires 0xa0 !in noise && s.line.rx == noise + Encode(sent)
    ensures 0 <= NewReturns(s.log, Drive(s).log) <= |sent|
    ensures HandedOver(Submits(s.log), Keeps(s.log), Drive(s).log, sent, NewReturns(s.log, Drive(s).log))
    ensures Drive(s).line.rx == [] <==> NewReturns(s.log, Drive(s).log) == |sent|
  {
    assert sent == [sent[0]] + sent[1..];
    StartUpRoundTrip(s, noise, sent[0], sent[1..]);
    EncodeSplit(sent);
    UnbootedTakesBoot(s, noise, sent[0], Encode(sent[1..]));
    GetEventHandsNothing(s);
    var (s', some, p) := GetEvent(s);
    if some {
      OneHandedOver(s, s', p, sent);
    } else {
      NoneHandedOver(s.log, sent);
    }
  }
}
