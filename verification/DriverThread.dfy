/** The driver thread as it is written: global ring indices and flags, packets overwritten in place, read loops. */
module DriverThread {
  import opened Bgapi
  import opened SerialLine
  import opened Receiver

  class SilabsDriver {
    const line: Line
    const slots: array<Packet>
    var w: nat
    var r: nat
    var response: Packet
    var booted: bool
    var log: seq<Mark>

    ghost predicate Valid()
      reads this, slots
    {
      slots.Length == QUEUE_LEN && Driver(LineState([], [], false), slots[..], w, r, response, booted, log).Valid()
    }

    ghost function State(): Driver
      reads this, slots, line
      requires slots.Length == QUEUE_LEN
    {
      Driver(line.State(), slots[..], w, r, response, booted, log)
    }

    constructor (line: Line)
      ensures Valid() && this.line == line && fresh(slots)
      ensures w == r == 0 && !booted && log == []
    {
      this.line := line;
      var blank := Packet(Header(0, 0, 0, 0), seq(PACKET_MEMORY, _ => 0));
      slots := new Packet[QUEUE_LEN](_ => blank);
      w, r, response, booted, log := 0, 0, blank, false, [];
    }

    method WaitForStart() returns (scanned: Scanned)
      requires Valid()
      modifies line
      ensures (line.State(), scanned) == Scan(old(line.State()))
    {
      while line.script != []
        invariant Scan(line.State()) == Scan(old(line.State()))
        decreases |line.script|
      {
        var got := line.ReadSome(1);
        if got == Data([0xa0]) {
          return Found;
        }
        if line.resetWanted {
          return Interrupted;
        }
      }
      scanned := NotYet;
    }

    method HeaderBytesFrom(start: seq<Byte>) returns (fill: Fill)
      requires Valid() && |start| <= HEADER_LEN
      modifies line
      ensures (line.State(), fill) == ReadHeader(old(line.State()), start)
    {
      var header := start;
      while |header| != HEADER_LEN
        invariant |header| <= HEADER_LEN
        invariant ReadHeader(line.State(), header) == ReadHeader(old(line.State()), start)
        decreases |line.script|
      {
        if line.script == [] {
          return Stuck(header);
        }
        var got := line.ReadSome(HEADER_LEN - |header|);
        if !got.Data? {
          return Lost(header);
        }
        header := header + got.bytes;
        if line.resetWanted {
          return Lost(header);
        }
      }
      fill := Full(header);
    }

    method TakePayload(header: Header, kind: Kind) returns (outcome: Outcome)
      requires Valid()
      requires !kind.Refused? ==> kind.len <= PACKET_MEMORY
      modifies this, slots, line
      ensures Valid() && (State(), outcome) == Dispatch(old(State()), header, kind)
    {
      if kind.Refused? {
        return Nothing;
      }
      if kind.Event? && Advance(w) == r {
        log := log + [Dropped(header)];
        var fill := line.Rx(kind.len);
        outcome := if fill.Stuck? then OutOfSchedule else Nothing;
      } else if kind.Event? {
        var slot := w;
        w := Advance(w);
        var fill := line.Rx(kind.len);
        log := log + [Accepted(header, fill.bytes)];
        slots[slot] := Packet(header, Overwrite(slots[slot].memory, fill.bytes));
        outcome := if fill.Stuck? then OutOfSchedule else Nothing;
      } else {
        var fill := line.Rx(kind.len);
        response := Packet(header, Overwrite(response.memory, fill.bytes));
        outcome := match fill
          case Full(_) => GotResponse
          case Lost(_) => Nothing
          case Stuck(_) => OutOfSchedule;
      }
    }

    method NextMessage() returns (outcome: Outcome)
      requires Valid()
      modifies this, slots, line
      ensures Valid() && (State(), outcome) == WaitMessage(old(State()))
    {
      var start := [];
      if !booted {
        var scanned := WaitForStart();
        match scanned {
          case Found => start := [0xa0];
          case Interrupted => return Nothing;
          case NotYet => return OutOfSchedule;
        }
      }
      var fill := HeaderBytesFrom(start);
      match fill {
        case Full(bytes) =>
          outcome := TakePayload(HeaderFrom(bytes), Classify(HeaderFrom(bytes)));
        case Lost(_) => outcome := Nothing;
        case Stuck(_) => outcome := OutOfSchedule;
      }
    }

    /** The body of the loop of gecko_get_event past an empty ring. */
    method ResetThenWait() returns (outcome: Outcome)
      requires Valid() && line.script != []
      modifies this, slots, line
      ensures Valid() && (State(), outcome) == Turn(old(State()))
    {
      line.resetWanted := line.resetWanted || line.script[0].early;
      if line.resetWanted {
        var done := line.CacheClean();
        if !done {
          return OutOfSchedule;
        }
        booted := false;
        line.resetWanted := false;
        log := log + [WasReset];
      }
      outcome := NextMessage();
    }

    method TakeEvent() returns (some: bool, p: Packet)
      requires Valid()
      modifies this, slots, line
      ensures Valid() && (State(), some, p) == GetEvent(old(State()))
    {
      while w == r
        invariant Valid() && GetEvent(State()) == GetEvent(old(State()))
        decreases |line.script|
      {
        if line.script == [] {
          return false, response;
        }
        var outcome := ResetThenWait();
        match outcome {
          case GotResponse =>
            log := log + [Returned(response)];
            return true, response;
          case Nothing =>
          case OutOfSchedule => return false, response;
        }
      }
      p := slots[r];
      r := Advance(r);
      log := log + [Returned(p)];
      some := true;
    }

    method HandleEvent(p: Packet)
      requires Valid()
      modifies this
      ensures Valid() && State() == Handle(old(State()), p)
    {
      var id := p.header.Id();
      if id != SYSTEM_BOOT_ID && !booted {
        return;
      }
      if id in FORWARDED_IDS {
        if id == SYSTEM_BOOT_ID {
          booted := true;
        }
        log := log + [Submitted(p)];
      } else if id in KEPT_IDS {
        log := log + [Kept(p)];
      }
    }

    /** silabs_driver, until the schedule runs out. */
    method Run()
      requires Valid()
      modifies this, slots, line
      ensures Valid() && State() == Drive(old(State()))
    {
      var some, p := TakeEvent();
      while some
        invariant Valid() && (if some then Drive(Handle(State(), p)) else State()) == Drive(old(State()))
        decreases |line.script|, State().Queued(), some
      {
        HandleEvent(p);
        some, p := TakeEvent();
      }
    }
  }
}
