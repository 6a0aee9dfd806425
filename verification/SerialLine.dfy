/** The UART, seen from the driver thread.  A finite schedule fixes how each successive read() comes out and
    when the API thread raises wait_reset_flag; every statement about all schedules is therefore a statement
    about every finite prefix of every run. */
module SerialLine {
  import opened Bgapi

  /** How one read() comes out: up to n bytes (possibly none), EAGAIN, or any other error. */
  datatype Got = UpTo(n: nat) | NotNow | Broken

  /** One read, and whether the API thread requests a reset before or during it. */
  datatype Tick = Tick(got: Got, early: bool, late: bool)

  /** Bytes not yet read, the schedule still to come, and the shared wait_reset_flag. */
  datatype LineState = LineState(rx: seq<Byte>, script: seq<Tick>, resetWanted: bool)

  datatype ReadResult = Data(bytes: seq<Byte>) | Again | Failure

  /** Full: everything asked for was read.  Lost: the read was given up.  Stuck: the schedule ran out. */
  datatype Fill = Full(bytes: seq<Byte>) | Lost(bytes: seq<Byte>) | Stuck(bytes: seq<Byte>)

  function Min(a: nat, b: nat): nat {
    if a <= b then a else b
  }

  /** One read() of at most want bytes. */
  function Read(l: LineState, want: nat): (r: (LineState, ReadResult))
    requires l.script != []
    ensures r.0.script == l.script[1..]
    ensures r.1.Data? ==> |r.1.bytes| <= want && r.1.bytes + r.0.rx == l.rx
    ensures !r.1.Data? ==> r.0.rx == l.rx
  {
    var t := l.script[0];
    var l' := l.(script := l.script[1..], resetWanted := l.resetWanted || t.early || t.late);
    match t.got
    case UpTo(n) =>
      var k := Min(n, Min(want, |l.rx|));
      (l'.(rx := l.rx[k..]), Data(l.rx[..k]))
    case NotNow => (l', Again)
    case Broken => (l', Failure)
  }

  /** uartRx: read until want bytes have arrived, retrying on EAGAIN. */
  function Receive(l: LineState, want: nat, acc: seq<Byte>): (r: (LineState, Fill))
    ensures r.1.bytes + r.0.rx == acc + l.rx
    ensures r.1.Full? ==> |r.1.bytes| == |acc| + want
    ensures !r.1.Full? ==> |acc| <= |r.1.bytes| < |acc| + want
    ensures r.1.Stuck? ==> r.0.script == []
    ensures |r.0.script| <= |l.script|
    decreases |l.script|
  {
    if want == 0 then (l, Full(acc))
    else if l.script == [] then (l, Stuck(acc))
    else
      var (l', got) := Read(l, want);
      match got
      case Data(bytes) =>
        assert acc + bytes + l'.rx == acc + l.rx;
        Receive(l', want - |bytes|, acc + bytes)
      case Again => Receive(l', want, acc)
      case Failure => (l', Lost(acc))
  }

  /** uartCacheClean: discard in fours until a read comes back short. The flag is false on a stuck schedule. */
  function Clean(l: LineState): (r: (LineState, bool))
    ensures !r.1 ==> r.0.script == []
    ensures |r.0.script| <= |l.script|
    ensures |r.0.rx| <= |l.rx| && r.0.rx == l.rx[|l.rx| - |r.0.rx|..]
    decreases |l.script|
  {
    if l.script == [] then (l, false)
    else
      var (l', got) := Read(l, 4);
      if got.Data? && |got.bytes| == 4 then Clean(l') else (l', true)
  }

  /** The serial port together with the flag that the API thread shares with the driver thread. */
  class Line {
    var rx: seq<Byte>
    var script: seq<Tick>
    var resetWanted: bool

    constructor (rx: seq<Byte>, script: seq<Tick>)
      ensures State() == LineState(rx, script, false)
    {
      this.rx, this.script, this.resetWanted := rx, script, false;
    }

    function State(): LineState
      reads this
    {
      LineState(rx, script, resetWanted)
    }

    method ReadSome(want: nat) returns (got: ReadResult)
      requires script != []
      modifies this
      ensures (State(), got) == Read(old(State()), want)
    {
      var t := script[0];
      script := script[1..];
      resetWanted := resetWanted || t.early || t.late;
      match t.got {
        case UpTo(n) =>
          var k := Min(n, Min(want, |rx|));
          got := Data(rx[..k]);
          rx := rx[k..];
        case NotNow => got := Again;
        case Broken => got := Failure;
      }
    }

    method Rx(want: nat) returns (fill: Fill)
      modifies this
      ensures (State(), fill) == Receive(old(State()), want, [])
    {
      var dataToRead, data := want, [];
      while dataToRead != 0
        invariant Receive(State(), dataToRead, data) == Receive(old(State()), want, [])
        decreases |script|
      {
        if script == [] {
          return Stuck(data);
        }
        var got := ReadSome(dataToRead);
        match got {
          case Data(bytes) =>
            dataToRead := dataToRead - |bytes|;
            data := data + bytes;
          case Again =>
          case Failure =>
            return Lost(data);
        }
      }
      fill := Full(data);
    }

    method CacheClean() returns (done: bool)
      modifies this
      ensures (State(), done) == Clean(old(State()))
    {
      while script != []
        invariant Clean(State()) == Clean(old(State()))
        decreases |script|
      {
        var got := ReadSome(4);
        if !(got.Data? && |got.bytes| == 4) {
          return true;
        }
      }
      done := false;
    }
  }

  /** uartTx: what write() calls accepting sent[0], sent[1], ... bytes put on the wire. */
  class Sender {
    var wire: seq<Byte>
    var script: seq<Got>

    constructor (script: seq<Got>)
      ensures wire == [] && this.script == script
    {
      wire, this.script := [], script;
    }

    /** The whole buffer goes out in order and once, however write() splits it, with as many bytes as the used writes
        took together. It fails at the first broken write and at no other, and otherwise goes on while there are writes.
        */
    method Tx(data: seq<Byte>) returns (sent: nat, ok: bool, ghost used: nat)
      modifies this
      ensures sent <= |data| && wire == old(wire) + data[..sent]
      ensures ok <==> sent == |data|
      ensures used <= |old(script)| && script == old(script)[used..]
      ensures sent == Min(|data|, Took(old(script)[..used]))
      ensures forall k :: 0 <= k < used && (ok || k < used - 1) ==> !old(script)[k].Broken?
      ensures !ok ==> (used > 0 && old(script)[used - 1].Broken?) || script == []
    {
      sent, used := 0, 0;
      assert old(script)[..0] == [];
      while sent < |data|
        invariant sent <= |data| && wire == old(wire) + data[..sent]
        invariant used <= |old(script)| && script == old(script)[used..]
        invariant sent == Min(|data|, Took(old(script)[..used]))
        invariant forall k :: 0 <= k < used ==> !old(script)[k].Broken?
        decreases |script|
      {
        if script == [] {
          return sent, false, used;
        }
        var t := script[0];
        script := script[1..];
        TookMore(old(script), used);
        used := used + 1;
        match t {
          case UpTo(n) =>
            var k := Min(n, |data| - sent);
            assert data[..sent] + data[sent..sent + k] == data[..sent + k];
            wire := wire + data[sent..sent + k];
            sent := sent + k;
          case NotNow =>
          case Broken =>
            return sent, false, used;
        }
      }
      ok := true;
    }
  }

  /** How many bytes some writes take together, if there are as many. */
  function Took(writes: seq<Got>): nat {
    if writes == [] then 0
    else Took(writes[..|writes| - 1]) + if writes[|writes| - 1].UpTo? then writes[|writes| - 1].n else 0
  }

  lemma {:induction false} TookMore(writes: seq<Got>, k: nat)
    requires k < |writes|
    ensures Took(writes[..k + 1]) == Took(writes[..k]) + if writes[k].UpTo? then writes[k].n else 0
  {
    assert writes[..k + 1][..k] == writes[..k];
  }
}
