/** What the driver thread keeps over every run: the ring never holds more than one event and never overflows,
    events come out once and in order, and nothing passes the boot gate early. */
module DriverInvariants {
  import opened Bgapi
  import opened SerialLine
  import opened Receiver

  /** The packet has the header and the received payload of an accepted event. */
  ghost predicate IsOf(p: Packet, mark: Mark)
    requires mark.Accepted?
  {
    p.header == mark.header && |mark.payload| <= |p.memory| && p.memory[..|mark.payload|] == mark.payload
  }

  predicate HandedOn(id: MsgId) {
    id in FORWARDED_IDS || id in KEPT_IDS
  }

  /** Mark i follows what came before it: an accepted event is returned by the very next action, what is
      returned is that event or a response, and only what was just returned is handed on. */
  ghost predicate Ordered(log: seq<Mark>, i: nat)
    requires i < |log|
  {
    && !log[i].Dropped?
    && (i > 0 && log[i - 1].Accepted? ==> log[i].Returned?)
    && (log[i].Returned? ==>
          || Classify(log[i].packet.header).Response?
          || (i > 0 && log[i - 1].Accepted?))
    && (log[i].Returned? && i > 0 && log[i - 1].Accepted? ==> IsOf(log[i].packet, log[i - 1]))
    && (log[i].Submitted? || log[i].Kept? ==>
          i > 0 && log[i - 1] == Returned(log[i].packet) && HandedOn(log[i].packet.header.Id()))
  }

  ghost predicate AllOrdered(log: seq<Mark>) {
    forall i :: 0 <= i < |log| ==> Ordered(log, i)
  }

  /** The ring is empty and no accepted event is outstanding. */
  ghost predicate Settled(s: Driver) {
    && s.Valid()
    && s.w == s.r
    && AllOrdered(s.log)
    && (s.log != [] ==> !s.log[|s.log| - 1].Accepted?)
  }

  /** Either that, or exactly one event, the one accepted last, is waiting in the ring. */
  ghost predicate AtMostOne(s: Driver) {
    || Settled(s)
    || (&& s.Valid()
        && s.w == Advance(s.r)
        && AllOrdered(s.log)
        && s.log != []
        && s.log[|s.log| - 1].Accepted?
        && IsOf(s.slots[s.r], s.log[|s.log| - 1]))
  }

  lemma {:induction false} Appended(log: seq<Mark>, mark: Mark)
    requires AllOrdered(log)
    requires Ordered(log + [mark], |log|)
    ensures AllOrdered(log + [mark])
  {
    var log' := log + [mark];
    forall i | 0 <= i < |log'| ensures Ordered(log', i) {
      if i < |log| {
        assert Ordered(log, i);
        assert log'[..|log|] == log;
      }
    }
  }

  /** Whether the log says the module has booted since the last reset. */
  ghost predicate BootedBy(log: seq<Mark>) {
    if log == [] then false
    else
      var last := log[|log| - 1];
      if last.WasReset? then false
      else if last.Submitted? && last.packet.header.Id() == SYSTEM_BOOT_ID then true
      else BootedBy(log[..|log| - 1])
  }

  ghost predicate Gated(log: seq<Mark>) {
    forall i :: 0 <= i < |log| && (log[i].Submitted? || log[i].Kept?) ==> BootedBy(log[..i + 1])
  }

  /** The boot flag tells what the log tells, and the gate has held so far. */
  ghost predicate Guarded(s: Driver) {
    && s.booted == BootedBy(s.log)
    && Gated(s.log)
  }

  lemma {:induction false} GatedStep(log: seq<Mark>, mark: Mark)
    requires Gated(log)
    requires mark.Submitted? || mark.Kept? ==> BootedBy(log + [mark])
    ensures Gated(log + [mark])
  {
    var log' := log + [mark];
    forall i | 0 <= i < |log'| && (log'[i].Submitted? || log'[i].Kept?) ensures BootedBy(log'[..i + 1]) {
      if i < |log| {
        assert log'[..i + 1] == log[..i + 1];
      } else {
        assert log'[..i + 1] == log';
      }
    }
  }

  lemma {:induction false} BootedByStep(log: seq<Mark>, mark: Mark)
    ensures BootedBy(log + [mark]) <==>
            !mark.WasReset? && ((mark.Submitted? && mark.packet.header.Id() == SYSTEM_BOOT_ID) || BootedBy(log))
  {
    assert (log + [mark])[..|log|] == log;
  }

  lemma {:induction false} GuardedStep(s: Driver, s': Driver, mark: Mark)
    requires Guarded(s)
    requires s'.log == s.log + [mark]
    requires match mark
             case WasReset => !s'.booted
             case Submitted(p) => if p.header.Id() == SYSTEM_BOOT_ID then s'.booted else s.booted && s'.booted
             case Kept(_) => s.booted && s'.booted
             case _ => s'.booted == s.booted
    ensures Guarded(s')
  {
    BootedByStep(s.log, mark);
    GatedStep(s.log, mark);
  }

  lemma {:induction false} DispatchKeepsOrder(s: Driver, header: Header, kind: Kind)
    requires Settled(s)
    requires !kind.Refused? ==> kind.len <= PACKET_MEMORY
    ensures var (s', outcome) := Dispatch(s, header, kind);
            && AtMostOne(s')
            && (outcome.GotResponse? ==> Settled(s') && s'.response.header == header && kind.Response?)
  {
    if kind.Event? {
      Appended(s.log, Accepted(header, Receive(s.line, kind.len, []).1.bytes));
    }
  }

  lemma {:induction false} DispatchKeepsGate(s: Driver, header: Header, kind: Kind)
    requires s.Valid() && Guarded(s) && s.w == s.r
    requires !kind.Refused? ==> kind.len <= PACKET_MEMORY
    ensures Guarded(Dispatch(s, header, kind).0)
  {
    if kind.Event? {
      GuardedStep(s, Dispatch(s, header, kind).0, Accepted(header, Receive(s.line, kind.len, []).1.bytes));
    }
  }

  /** gecko_wait_message is entered with an empty ring; it accepts at most one event, and never drops one. */
  lemma {:induction false} DispatchKeeps(s: Driver, header: Header, kind: Kind)
    requires Settled(s) && Guarded(s) && kind == Classify(header)
    ensures var (s', outcome) := Dispatch(s, header, kind);
            && AtMostOne(s') && Guarded(s')
            && (outcome.GotResponse? ==> Settled(s') && Classify(s'.response.header).Response?)
  {
    DispatchKeepsOrder(s, header, kind);
    DispatchKeepsGate(s, header, kind);
  }

  lemma {:induction false} WaitMessageKeeps(s: Driver)
    requires Settled(s) && Guarded(s)
    ensures var (s', outcome) := WaitMessage(s);
            && AtMostOne(s') && Guarded(s')
            && (outcome.GotResponse? ==> Settled(s') && Classify(s'.response.header).Response?)
  {
    var start := if s.booted then s else s.(line := Scan(s.line).0);
    var acc := if s.booted then [] else [0xa0];
    var (l, fill) := ReadHeader(start.line, acc);
    if fill.Full? {
      DispatchKeeps(s.(line := l), HeaderFrom(fill.bytes), Classify(HeaderFrom(fill.bytes)));
    }
  }

  lemma {:induction false} ResetKeeps(s: Driver)
    requires Settled(s) && Guarded(s)
    ensures Settled(ResetBranch(s).0) && Guarded(ResetBranch(s).0)
  {
    var (s', done) := ResetBranch(s);
    if done {
      Appended(s.log, WasReset);
      GuardedStep(s, s', WasReset);
    }
  }

  lemma {:induction false} TurnKeeps(s: Driver)
    requires Settled(s) && Guarded(s)
    requires s.line.script != []
    ensures var (s', outcome) := Turn(s);
            && AtMostOne(s') && Guarded(s')
            && (outcome.GotResponse? ==> Settled(s') && Classify(s'.response.header).Response?)
  {
    var wanted := s.line.resetWanted || s.line.script[0].early;
    var s' := s.(line := s.line.(resetWanted := wanted));
    if wanted {
      ResetKeeps(s');
      var (s'', done) := ResetBranch(s');
      if done {
        WaitMessageKeeps(s'');
      }
    } else {
      WaitMessageKeeps(s');
    }
  }

  lemma {:induction false} ReturnKeeps(s: Driver, p: Packet)
    requires s.Valid() && AllOrdered(s.log) && Guarded(s)
    requires s.w == s.r
    requires if s.log != [] && s.log[|s.log| - 1].Accepted? then IsOf(p, s.log[|s.log| - 1])
             else Classify(p.header).Response?
    ensures Settled(Return(s, p)) && Guarded(Return(s, p))
  {
    Appended(s.log, Returned(p));
    GuardedStep(s, Return(s, p), Returned(p));
  }

  /** What a call of gecko_get_event leaves behind, and what it hands out. */
  ghost predicate TakenInOrder(taken: (Driver, bool, Packet)) {
    var (s, some, p) := taken;
    && AtMostOne(s) && Guarded(s)
    && (some ==> Settled(s) && s.log != [] && s.log[|s.log| - 1] == Returned(p))
  }

  lemma {:induction false} ReturnedInOrder(s: Driver, p: Packet)
    requires Settled(Return(s, p)) && Guarded(Return(s, p))
    ensures TakenInOrder((Return(s, p), true, p))
  {
  }

  lemma {:induction false} FromRing(s: Driver)
    requires AtMostOne(s) && Guarded(s) && s.w != s.r
    ensures TakenInOrder(GetEvent(s))
  {
    ReturnKeeps(s.(r := Advance(s.r)), s.slots[s.r]);
    ReturnedInOrder(s.(r := Advance(s.r)), s.slots[s.r]);
  }

  /** Whenever gecko_get_event hands a packet out the ring is empty again. */
  lemma {:induction false} GetEventKeeps(s: Driver)
    requires AtMostOne(s) && Guarded(s)
    ensures TakenInOrder(GetEvent(s))
    decreases |s.line.script|
  {
    if s.w != s.r {
      FromRing(s);
    } else if s.line.script != [] {
      TurnKeeps(s);
      AfterTurn(s);
      var (s', outcome) := Turn(s);
      match outcome {
        case GotResponse =>
          ReturnKeeps(s', s'.response);
          ReturnedInOrder(s', s'.response);
        case Nothing => GetEventKeeps(s');
        case OutOfSchedule =>
      }
    }
  }

  lemma {:induction false} HandleKeeps(s: Driver, p: Packet)
    requires Settled(s) && Guarded(s)
    requires s.log != [] && s.log[|s.log| - 1] == Returned(p)
    ensures Settled(Handle(s, p)) && Guarded(Handle(s, p))
  {
    var s' := Handle(s, p);
    if s'.log != s.log {
      var mark := s'.log[|s.log|];
      Appended(s.log, mark);
      GuardedStep(s, s', mark);
    }
  }

  lemma {:induction false} DriveKeeps(s: Driver)
    requires Settled(s) && Guarded(s)
    ensures AtMostOne(Drive(s)) && Guarded(Drive(s))
    decreases |s.line.script|, s.Queued()
  {
    GetEventKeeps(s);
    var (s', some, p) := GetEvent(s);
    if some {
      HandleKeeps(s', p);
      DriveKeeps(Handle(s', p));
    }
  }

  ghost predicate Fresh(s: Driver) {
    s.Valid() && s.w == s.r && !s.booted && s.log == []
  }

  /** Over every schedule of reads and reset requests: no event is ever dropped, each accepted event is returned
      by the next action of the thread, so before any reset, and each packet handed on is the one just returned. */
  lemma {:induction false} EventsOnceAndInOrder(s: Driver)
    requires Fresh(s)
    ensures AllOrdered(Drive(s).log)
    ensures Drive(s).Queued() <= 1
  {
    DriveKeeps(s);
  }

  /** Over every schedule: whatever is handed on was accepted two marks before, header and payload as received, and
      returned in between; so nothing received before a reset is handed on after it. */
  lemma {:induction false} NoEventOutlivesAReset(s: Driver, j: nat)
    requires Fresh(s)
    requires j < |Drive(s).log| && (Drive(s).log[j].Submitted? || Drive(s).log[j].Kept?)
    ensures j >= 2 && Drive(s).log[j - 2].Accepted? && IsOf(Drive(s).log[j].packet, Drive(s).log[j - 2])
    ensures Drive(s).log[j - 1] == Returned(Drive(s).log[j].packet)
    ensures forall i :: 0 <= i < j && Drive(s).log[i].WasReset? ==> i < j - 2
  {
    DriveKeeps(s);
    AcceptedBefore(Drive(s).log, j);
  }

  lemma {:induction false} AcceptedBefore(log: seq<Mark>, j: nat)
    requires AllOrdered(log) && j < |log| && (log[j].Submitted? || log[j].Kept?)
    ensures j >= 2 && log[j - 2].Accepted? && IsOf(log[j].packet, log[j - 2]) && log[j - 1] == Returned(log[j].packet)
    ensures forall i :: 0 <= i < j && log[i].WasReset? ==> i < j - 2
  {
    assert Ordered(log, j);
    assert Ordered(log, j - 1);
    HandedOnIsNoResponse(log[j].packet.header);
  }

  /** Only event ids are handed on. */
  lemma {:induction false} HandedOnIsNoResponse(header: Header)
    requires HandedOn(header.Id())
    ensures !Classify(header).Response?
  {
    assert header.Id().first == 0xa0;
  }

  /** Over every schedule: between the start, or a reset, at mark i and the next packet handed on at mark j,
      that packet is the boot event and goes to the watcher queue. */
  lemma {:induction false} FirstHandedOnIsBoot(s: Driver, i: int, j: nat)
    requires Fresh(s)
    requires -1 <= i < j < |Drive(s).log|
    requires i >= 0 ==> Drive(s).log[i].WasReset?
    requires Drive(s).log[j].Submitted? || Drive(s).log[j].Kept?
    requires forall k :: i < k < j ==> !Drive(s).log[k].Submitted? && !Drive(s).log[k].Kept?
    ensures Drive(s).log[j].Submitted? && Drive(s).log[j].packet.header.Id() == SYSTEM_BOOT_ID
  {
    DriveKeeps(s);
    BootOpensTheGate(Drive(s).log, i, j);
  }

  lemma {:induction false} BootOpensTheGate(log: seq<Mark>, i: int, j: nat)
    requires Gated(log)
    requires -1 <= i < j < |log|
    requires i >= 0 ==> log[i].WasReset?
    requires log[j].Submitted? || log[j].Kept?
    requires forall k :: i < k < j ==> !log[k].Submitted? && !log[k].Kept?
    ensures log[j].Submitted? && log[j].packet.header.Id() == SYSTEM_BOOT_ID
  {
    assert BootedBy(log[..j + 1]);
    assert log[..j + 1][..j] == log[..j];
    QuietMeansUnbooted(log, i, j);
  }

  lemma {:induction false} QuietMeansUnbooted(log: seq<Mark>, i: int, j: nat)
    requires -1 <= i < j <= |log|
    requires i >= 0 ==> log[i].WasReset?
    requires forall k :: i < k < j ==> !log[k].Submitted? && !log[k].Kept?
    ensures !BootedBy(log[..j])
    decreases j
  {
    if j > 0 {
      assert log[..j][..j - 1] == log[..j - 1];
      if j - 1 > i {
        QuietMeansUnbooted(log, i, j - 1);
      }
    }
  }
}
