/** The driver thread: framing, the event ring, the reset branch and the boot gate, first as a function from
    state to state and then as the loops that compute it. */
module Receiver {
  import opened Bgapi
  import opened SerialLine

  const QUEUE_LEN := 30
  const PACKET_MEMORY := MAX_PAYLOAD_SIZE

  /** Message memory that is overwritten in place: a short payload leaves the old tail behind it. */
  datatype Packet = Packet(header: Header, memory: seq<Byte>)

  /** What the thread did, in order; an accepted event with as much of its payload as was received. */
  datatype Mark =
    | WasReset
    | Accepted(header: Header, payload: seq<Byte>)
    | Dropped(header: Header)
    | Returned(packet: Packet)
    | Submitted(packet: Packet)
    | Kept(packet: Packet)

  datatype Driver = Driver(
    line: LineState, slots: seq<Packet>, w: nat, r: nat, response: Packet, booted: bool, log: seq<Mark>)
  {
    ghost predicate Valid() {
      && |slots| == QUEUE_LEN
      && w < QUEUE_LEN
      && r < QUEUE_LEN
      && |response.memory| == PACKET_MEMORY
      && (forall i :: 0 <= i < QUEUE_LEN ==> |slots[i].memory| == PACKET_MEMORY)
    }

    function Queued(): nat
      requires r < QUEUE_LEN
    {
      if w >= r then w - r else QUEUE_LEN - (r - w)
    }
  }

  datatype Outcome = Nothing | GotResponse | OutOfSchedule

  /** The next index of the ring. */
  function Advance(i: nat): (j: nat)
    requires i < QUEUE_LEN
    ensures j < QUEUE_LEN && j != i
  {
    if i + 1 == QUEUE_LEN then 0 else i + 1
  }

  lemma {:induction false} AdvanceIsModular(i: nat)
    requires i < QUEUE_LEN
    ensures Advance(i) == (i + 1) % QUEUE_LEN
  {
  }

  function Overwrite(memory: seq<Byte>, bytes: seq<Byte>): (m: seq<Byte>)
    requires |bytes| <= |memory|
    ensures |m| == |memory| && m[..|bytes|] == bytes
  {
    bytes + memory[|bytes|..]
  }

  datatype Scanned = Found | Interrupted | NotYet

  /** Unbooted: look for the byte 0xa0, one byte at a time. */
  function Scan(l: LineState): (r: (LineState, Scanned))
    ensures |r.0.script| <= |l.script|
    ensures l.script != [] ==> |r.0.script| < |l.script|
    ensures r.1.NotYet? ==> r.0.script == []
    decreases |l.script|
  {
    if l.script == [] then (l, NotYet)
    else
      var (l', got) := Read(l, 1);
      if got == Data([0xa0]) then (l', Found)
      else if l'.resetWanted then (l', Interrupted)
      else Scan(l')
  }

  /** The rest of the header; an error or a pending reset gives the partial header up. */
  function ReadHeader(l: LineState, acc: seq<Byte>): (r: (LineState, Fill))
    requires |acc| <= HEADER_LEN
    ensures r.1.Full? ==> |r.1.bytes| == HEADER_LEN
    ensures r.1.Stuck? ==> r.0.script == []
    ensures |r.0.script| <= |l.script|
    ensures |acc| < HEADER_LEN && l.script != [] ==> |r.0.script| < |l.script|
    decreases |l.script|
  {
    if |acc| == HEADER_LEN then (l, Full(acc))
    else if l.script == [] then (l, Stuck(acc))
    else
      var (l', got) := Read(l, HEADER_LEN - |acc|);
      if !got.Data? then (l', Lost(acc))
      else if l'.resetWanted then (l', Lost(acc + got.bytes))
      else ReadHeader(l', acc + got.bytes)
  }

  /** gecko_wait_message once a whole header is in. */
  function Dispatch(s: Driver, header: Header, kind: Kind): (r: (Driver, Outcome))
    requires s.Valid()
    requires !kind.Refused? ==> kind.len <= PACKET_MEMORY
    ensures r.0.Valid()
    ensures |r.0.line.script| <= |s.line.script|
    ensures r.1.OutOfSchedule? ==> r.0.line.script == []
  {
    match kind
    case Refused => (s, Nothing)
    case Event(len) =>
      var (l, fill) := Receive(s.line, len, []);
      var outcome := if fill.Stuck? then OutOfSchedule else Nothing;
      if Advance(s.w) == s.r then
        (s.(line := l, log := s.log + [Dropped(header)]), outcome)
      else
        var slot := Packet(header, Overwrite(s.slots[s.w].memory, fill.bytes));
        (s.(line := l, slots := s.slots[s.w := slot], w := Advance(s.w), log := s.log + [Accepted(header, fill.bytes)]),
         outcome)
    case Response(len) =>
      var (l, fill) := Receive(s.line, len, []);
      var outcome := match fill
        case Full(_) => GotResponse
        case Lost(_) => Nothing
        case Stuck(_) => OutOfSchedule;
      (s.(line := l, response := Packet(header, Overwrite(s.response.memory, fill.bytes))), outcome)
  }

  function WaitMessage(s: Driver): (r: (Driver, Outcome))
    requires s.Valid()
    ensures r.0.Valid()
    ensures |r.0.line.script| <= |s.line.script|
    ensures !r.1.OutOfSchedule? ==> |r.0.line.script| < |s.line.script|
    ensures r.1.OutOfSchedule? ==> r.0.line.script == []
  {
    if s.booted then
      AfterStart(s, [])
    else
      var (l, scanned) := Scan(s.line);
      match scanned
      case Found => AfterStart(s.(line := l), [0xa0])
      case Interrupted => (s.(line := l), Nothing)
      case NotYet => (s.(line := l), OutOfSchedule)
  }

  function AfterStart(s: Driver, acc: seq<Byte>): (r: (Driver, Outcome))
    requires s.Valid()
    requires |acc| < HEADER_LEN
    ensures r.0.Valid()
    ensures |r.0.line.script| <= |s.line.script|
    ensures !r.1.OutOfSchedule? ==> |r.0.line.script| < |s.line.script|
    ensures r.1.OutOfSchedule? ==> r.0.line.script == []
  {
    var (l, fill) := ReadHeader(s.line, acc);
    match fill
    case Full(bytes) => Dispatch(s.(line := l), HeaderFrom(bytes), Classify(HeaderFrom(bytes)))
    case Lost(_) => (s.(line := l), Nothing)
    case Stuck(_) => (s.(line := l), OutOfSchedule)
  }

  /** The reset branch: the module is switched off, the device list and the UART cache are emptied. */
  function ResetBranch(s: Driver): (r: (Driver, bool))
    requires s.Valid()
    ensures r.0.Valid()
    ensures |r.0.line.script| <= |s.line.script|
    ensures !r.1 ==> r.0.line.script == []
  {
    var (l, done) := Clean(s.line);
    if done then
      (s.(line := l.(resetWanted := false), booted := false, log := s.log + [WasReset]), true)
    else
      (s.(line := l), false)
  }

  /** One turn of the loop of gecko_get_event past an empty ring: the reset check, then one wait. */
  function Turn(s: Driver): (r: (Driver, Outcome))
    requires s.Valid()
    requires s.line.script != []
    ensures r.0.Valid()
    ensures |r.0.line.script| <= |s.line.script|
    ensures !r.1.OutOfSchedule? ==> |r.0.line.script| < |s.line.script|
    ensures r.1.OutOfSchedule? ==> r.0.line.script == []
  {
    var wanted := s.line.resetWanted || s.line.script[0].early;
    var s' := s.(line := s.line.(resetWanted := wanted));
    if wanted then
      var (s'', done) := ResetBranch(s');
      if done then WaitMessage(s'') else (s'', OutOfSchedule)
    else WaitMessage(s')
  }

  function Return(s: Driver, p: Packet): Driver {
    s.(log := s.log + [Returned(p)])
  }

  /** gecko_get_event in blocking mode; false when the schedule ran out. */
  function GetEvent(s: Driver): (r: (Driver, bool, Packet))
    requires s.Valid()
    ensures r.0.Valid()
    ensures |r.2.memory| == PACKET_MEMORY
    ensures |r.0.line.script| <= |s.line.script|
    ensures r.1 ==> |r.0.line.script| < |s.line.script| || r.0.Queued() < s.Queued()
    ensures !r.1 ==> r.0.line.script == []
    decreases |s.line.script|
  {
    if s.w != s.r then
      var p := s.slots[s.r];
      (Return(s.(r := Advance(s.r)), p), true, p)
    else if s.line.script == [] then (s, false, s.response)
    else
      var (s', outcome) := Turn(s);
      match outcome
      case GotResponse => (Return(s', s'.response), true, s'.response)
      case Nothing => GetEvent(s')
      case OutOfSchedule => (s', false, s'.response)
  }

  /** What gecko_get_event makes of one turn past an empty ring, except for going around again. */
  lemma {:induction false} AfterTurn(s: Driver)
    requires s.Valid() && s.w == s.r && s.line.script != []
    ensures var (s', outcome) := Turn(s);
            GetEvent(s) == match outcome
                           case GotResponse => (Return(s', s'.response), true, s'.response)
                           case Nothing => GetEvent(s')
                           case OutOfSchedule => (s', false, s'.response)
  {
  }

  // Event ids that are handed on to the watcher thread.
  const FORWARDED_IDS: set<MsgId> := {
    SYSTEM_BOOT_ID, MsgId(0xa0, 0x06, 0x01), MsgId(0xa0, 0x09, 0x04), MsgId(0xa0, 0x0a, 0x00),
    MsgId(0xa0, 0x0a, 0x03), MsgId(0xa0, 0x05, 0x00), MsgId(0xa0, 0x05, 0x02), MsgId(0xa0, 0x42, 0x00),
    MsgId(0xa0, 0x42, 0x02), MsgId(0xa0, 0x42, 0x01), MsgId(0xa0, 0x06, 0x02), MsgId(0xa0, 0x06, 0x00) }
  // Service and characteristic discovery results, kept for the API thread.
  const KEPT_IDS: set<MsgId> := { MsgId(0xa0, 0x09, 0x01), MsgId(0xa0, 0x09, 0x02) }

  /** silabs_event_handler: the boot gate, then the switch on the message id. */
  function Handle(s: Driver, p: Packet): (r: Driver)
    requires s.Valid()
    ensures r.Valid() && r.line == s.line && r.w == s.w && r.r == s.r
  {
    var id := p.header.Id();
    if id != SYSTEM_BOOT_ID && !s.booted then s
    else if id in FORWARDED_IDS then
      s.(booted := s.booted || id == SYSTEM_BOOT_ID, log := s.log + [Submitted(p)])
    else if id in KEPT_IDS then s.(log := s.log + [Kept(p)])
    else s
  }

  /** The endless loop of the driver thread, up to the end of the schedule. */
  function Drive(s: Driver): (r: Driver)
    requires s.Valid()
    ensures r.Valid() && r.line.script == []
    decreases |s.line.script|, s.Queued()
  {
    var (s', some, p) := GetEvent(s);
    if some then Drive(Handle(s', p)) else s'
  }
}
